/** The model wrapper of model.py: which pretrained variant is loaded
    (`Model.__init__`, `Model.set_model`), one image per seed
    (`Model.generate_images`) and the request handler behind the UI's Run
    button (`AppModel.run`).

    Everything the wrapper calls into and cannot be seen here is a parameter
    or an opaque value:
    - `load_model` reads the variant's files from disk and builds a
      tokenizer, an encoder, a decoder and their parameters. Each object it
      builds is a `Component` naming the variant and the load that built
      it. The map `checkpoints` gives the configuration of each variant
      whose files load; for any other variant `load_model` raises.
    - the tokenizer call is the function `tokenize`;
    - the encoder's output is a symbolic `EncoderState`;
    - sampling image tokens and decoding them to pixels is the function
      `sample`. */
module DalleModel {
  import opened Grid
  import opened TextTokens

  /** The variants `set_model` accepts. */
  const Variants: seq<string> := ["dalle-mini", "dalle-mega"]

  /** The variant a new model starts with. */
  const DefaultVariant: string := "dalle-mini"

  /** The entry of a variant's configuration that this wrapper reads. */
  datatype Config = Config(maxTextLength: nat)

  datatype Part = TokenizerPart | EncoderPart | DecoderPart | ParamsPart

  /** An object built by `load_model`: which part, of which variant, and by
      which call (`load`, counting calls from 0). Two components are equal
      exactly when the same call built the same part. */
  datatype Component = Component(part: Part, variant: string, load: nat)

  /** What one call of `load_model(variant)` returns. */
  datatype Loaded = Loaded(config: Config, tokenizer: Component, encoder: Component,
                           decoder: Component, params: Component)

  datatype Option<T> = None | Some(value: T)

  /** `load_model(variant)` as the `load`-th successful load on a model:
      `None` when the call raises. */
  function LoadModel(checkpoints: map<string, Config>, variant: string, load: nat): Option<Loaded>
  {
    if variant !in checkpoints then None
    else Some(Loaded(checkpoints[variant],
                     Component(TokenizerPart, variant, load),
                     Component(EncoderPart, variant, load),
                     Component(DecoderPart, variant, load),
                     Component(ParamsPart, variant, load)))
  }

  /** The encoder's output for the given text-token rows. */
  datatype EncoderState = EncoderState(encoder: Component, textTokens: seq<seq<Int32>>)

  /** The tokenizer call: token ids of a prompt. */
  type Tokenize = (Component, string) -> seq<Int32>

  /** `generate_image`: the image drawn for one seed by the decoder with its
      parameters, from the text tokens and the encoder's state. */
  type Sample = (Component, Component, seq<seq<Int32>>, EncoderState, int) -> Image

  datatype Error =
    | UnknownVariant(name: string)                        // the assert in set_model
    | LoadFailed(name: string)                            // load_model raises
    | TextDoesNotFit(tokenCount: nat, maxTextLength: nat)  // numpy raises in tokenize_text

  datatype Outcome = Pass | Fail(error: Error)

  datatype Result<T> = Ok(value: T) | Err(error: Error)

  // ---------------------------------------------------------------------
  // The selection state machine, as a function of the requests
  // ---------------------------------------------------------------------

  /** Whether `set_model(name)` on a model holding `current` loads `name`:
      a known variant other than the current one, whose files load. */
  predicate Switches(current: string, name: string, loadable: set<string>) {
    name in Variants && name != current && name in loadable
  }

  /** The variants that successive `set_model(name)` calls load, starting
      from a model whose variant is `current`, when the variants in
      `loadable` are those whose files load. A request for an unknown
      variant, or one whose load fails, changes nothing; a request for the
      current variant loads nothing. */
  function LoadsAfter(current: string, requests: seq<string>, loadable: set<string>): seq<string>
    decreases |requests|
  {
    if requests == [] then []
    else
      var name := requests[0];
      if Switches(current, name, loadable) then [name] + LoadsAfter(name, requests[1..], loadable)
      else LoadsAfter(current, requests[1..], loadable)
  }

  /** The variant selected after successive `set_model(name)` calls. */
  function SelectedAfter(current: string, requests: seq<string>, loadable: set<string>): string
    decreases |requests|
  {
    if requests == [] then current
    else
      var name := requests[0];
      SelectedAfter(if Switches(current, name, loadable) then name else current, requests[1..], loadable)
  }

  /** Every load switches to a known, loadable variant that differs from the
      one loaded before it: reloads happen only on a change. */
  lemma {:induction false} LoadsAreChanges(current: string, requests: seq<string>, loadable: set<string>)
    ensures var loads := LoadsAfter(current, requests, loadable);
      (loads != [] ==> loads[0] != current) &&
      (forall k :: 0 <= k < |loads| ==> loads[k] in Variants && loads[k] in loadable) &&
      (forall k :: 0 < k < |loads| ==> loads[k] != loads[k - 1])
    decreases |requests|
  {
    if requests != [] {
      var name := requests[0];
      if Switches(current, name, loadable) {
        LoadsAreChanges(name, requests[1..], loadable);
      } else {
        LoadsAreChanges(current, requests[1..], loadable);
      }
    }
  }

  /** The last variant loaded is the selected one, and none is loaded when
      the selection ends where it started. */
  lemma {:induction false} LastLoadIsSelected(current: string, requests: seq<string>, loadable: set<string>)
    ensures var loads := LoadsAfter(current, requests, loadable);
      (loads == [] ==> SelectedAfter(current, requests, loadable) == current) &&
      (loads != [] ==> SelectedAfter(current, requests, loadable) == loads[|loads| - 1])
    decreases |requests|
  {
    if requests != [] {
      var name := requests[0];
      if Switches(current, name, loadable) {
        LastLoadIsSelected(name, requests[1..], loadable);
      } else {
        LastLoadIsSelected(current, requests[1..], loadable);
      }
    }
  }

  /** Requests in two batches load what the first batch loads, then what
      the second loads from where the first left off. */
  lemma {:induction false} LoadsAfterAppend(current: string, a: seq<string>, b: seq<string>, loadable: set<string>)
    ensures LoadsAfter(current, a + b, loadable) ==
            LoadsAfter(current, a, loadable) + LoadsAfter(SelectedAfter(current, a, loadable), b, loadable)
    ensures SelectedAfter(current, a + b, loadable) ==
            SelectedAfter(SelectedAfter(current, a, loadable), b, loadable)
    decreases |a|
  {
    if a != [] {
      assert (a + b)[0] == a[0] && (a + b)[1..] == a[1..] + b;
      var name := a[0];
      var next := if Switches(current, name, loadable) then name else current;
      LoadsAfterAppend(next, a[1..], b, loadable);
    } else {
      assert a + b == b;
    }
  }

  /** Asking for the same variant twice in a row loads it at most once. */
  lemma RepeatedRequestLoadsNothing(current: string, requests: seq<string>, name: string, loadable: set<string>)
    ensures LoadsAfter(current, requests + [name, name], loadable) ==
            LoadsAfter(current, requests + [name], loadable)
  {
    LoadsAfterAppend(current, requests, [name, name], loadable);
    LoadsAfterAppend(current, requests, [name], loadable);
    assert [name, name][1..] == [name];
  }

  // ---------------------------------------------------------------------
  // Seeds and images
  // ---------------------------------------------------------------------

  /** `list(range(seed, seed + count))`. */
  function SeedRange(seed: int, count: nat): (seeds: seq<int>)
    decreases count
    ensures |seeds| == count
    ensures forall k :: 0 <= k < count ==> seeds[k] == seed + k
  {
    if count == 0 then [] else [seed] + SeedRange(seed + 1, count - 1)
  }

  /** The list comprehension of `generate_images`: one image per seed, in
      the order of the seeds. */
  function ImagesForSeeds(sample: Sample, decoder: Component, params: Component,
                          textTokens: seq<seq<Int32>>, state: EncoderState, seeds: seq<int>): (images: seq<Image>)
    ensures |images| == |seeds|
    ensures forall k :: 0 <= k < |seeds| ==>
      images[k] == sample(decoder, params, textTokens, state, seeds[k])
  {
    if seeds == [] then []
    else [sample(decoder, params, textTokens, state, seeds[0])]
         + ImagesForSeeds(sample, decoder, params, textTokens, state, seeds[1..])
  }

  /** Every image the decoder draws has shape h x w x 3. */
  ghost predicate SamplesHaveShape(sample: Sample, h: nat, w: nat) {
    forall decoder, params, textTokens, state, seed ::
      sample(decoder, params, textTokens, state, seed).HasShape(h, w)
  }

  /** A list of images of one shape can be tiled into any non-empty grid. */
  lemma UniformImagesPlaceable(images: seq<Image>, nrows: nat, ncols: nat, h: nat, w: nat)
    requires |images| > 0
    requires forall k :: 0 <= k < |images| ==> images[k].HasShape(h, w)
    ensures Placeable(images, nrows, ncols)
    ensures BlockHeight(images) == h && BlockWidth(images) == w
  {
  }

  // ---------------------------------------------------------------------
  // The wrapper object
  // ---------------------------------------------------------------------

  /** `Model`, with `AppModel`'s one extra method `run`. */
  class Model {
    /** The configuration of each variant whose pretrained files load. */
    const checkpoints: map<string, Config>

    var modelName: string
    var config: Config
    var tokenizer: Component
    var encoder: Component
    var decoder: Component
    var params: Component

    /** How many calls of `load_model` on this object have returned. */
    var loads: nat
    /** The variants those calls loaded, in order. */
    ghost var history: seq<string>

    /** The five loaded objects are those the last completed load returned. */
    ghost predicate HoldsLastLoad()
      reads this
    {
      |history| == loads && loads > 0 &&
      LoadModel(checkpoints, history[loads - 1], loads - 1) ==
        Some(Loaded(config, tokenizer, encoder, decoder, params))
    }

    /** The objects held are those of the last load, which loaded the
        current variant; every load after the first switched to another
        known variant. */
    ghost predicate Valid()
      reads this
    {
      HoldsLastLoad() &&
      history[loads - 1] == modelName &&
      (forall k :: 0 < k < |history| ==> history[k] in Variants) &&
      (forall k :: 0 < k < |history| ==> history[k] != history[k - 1])
    }

    /** `Model.__init__`: load the given variant. When that load raises, no
        model is built, hence the precondition. */
    constructor (checkpoints: map<string, Config>, modelName: string := DefaultVariant)
      requires modelName in checkpoints
      ensures Valid()
      ensures this.checkpoints == checkpoints && this.modelName == modelName
      ensures loads == 1 && history == [modelName]
      ensures LoadModel(checkpoints, modelName, 0) == Some(Loaded(config, tokenizer, encoder, decoder, params))
    {
      this.checkpoints := checkpoints;
      this.modelName := modelName;
      var loaded := LoadModel(checkpoints, modelName, 0).value;
      config := loaded.config;
      tokenizer := loaded.tokenizer;
      encoder := loaded.encoder;
      decoder := loaded.decoder;
      params := loaded.params;
      loads := 1;
      history := [modelName];
    }

    /** `set_model(name)` as model.py writes it: `model_name` is assigned
        before `load_model` runs, so a load that raises leaves the new name
        beside the previous variant's five objects, and the next request
        for that name returns without loading. */
    method SetModelAsWritten(name: string) returns (outcome: Outcome)
      requires HoldsLastLoad()
      modifies this
      ensures HoldsLastLoad()
      ensures outcome == if name !in Variants then Fail(UnknownVariant(name))
                         else if name != old(modelName) && name !in checkpoints then Fail(LoadFailed(name))
                         else Pass
      ensures modelName == if name in Variants then name else old(modelName)
      ensures if Switches(old(modelName), name, checkpoints.Keys)
              then loads == old(loads) + 1 && history == old(history) + [name] &&
                   LoadModel(checkpoints, name, old(loads)) ==
                     Some(Loaded(config, tokenizer, encoder, decoder, params))
              else loads == old(loads) && history == old(history) &&
                   config == old(config) && tokenizer == old(tokenizer) && encoder == old(encoder) &&
                   decoder == old(decoder) && params == old(params)
    {
      if name !in Variants {
        return Fail(UnknownVariant(name));
      }
      outcome := Pass;
      if name == modelName {
        return;
      }
      modelName := name;
      var loaded := LoadModel(checkpoints, name, loads);
      if loaded.None? {
        return Fail(LoadFailed(name));
      }
      config := loaded.value.config;
      tokenizer := loaded.value.tokenizer;
      encoder := loaded.value.encoder;
      decoder := loaded.value.decoder;
      params := loaded.value.params;
      history := history + [name];
      loads := loads + 1;
    }

    /** `set_model(name)` with `model_name` assigned once the load has
        returned: fail on an unknown variant; do nothing when `name` is
        already loaded; fail with nothing changed when the load raises;
        otherwise replace all five loaded objects by the results of that one
        load. The name always names the variant of the objects held. */
    method SetModel(name: string) returns (outcome: Outcome)
      requires Valid()
      modifies this
      ensures Valid()
      ensures outcome == if name !in Variants then Fail(UnknownVariant(name))
                         else if name != old(modelName) && name !in checkpoints then Fail(LoadFailed(name))
                         else Pass
      ensures modelName == SelectedAfter(old(modelName), [name], checkpoints.Keys)
      ensures history == old(history) + LoadsAfter(old(modelName), [name], checkpoints.Keys)
      ensures tokenizer.variant == modelName && encoder.variant == modelName &&
              decoder.variant == modelName && params.variant == modelName
      ensures if Switches(old(modelName), name, checkpoints.Keys)
              then loads == old(loads) + 1 &&
                   LoadModel(checkpoints, name, old(loads)) ==
                     Some(Loaded(config, tokenizer, encoder, decoder, params))
              else loads == old(loads) && modelName == old(modelName) &&
                   config == old(config) && tokenizer == old(tokenizer) && encoder == old(encoder) &&
                   decoder == old(decoder) && params == old(params)
    {
      if name !in Variants {
        return Fail(UnknownVariant(name));
      }
      outcome := Pass;
      if name == modelName {
        return;
      }
      var loaded := LoadModel(checkpoints, name, loads);
      if loaded.None? {
        return Fail(LoadFailed(name));
      }
      modelName := name;
      config := loaded.value.config;
      tokenizer := loaded.value.tokenizer;
      encoder := loaded.value.encoder;
      decoder := loaded.value.decoder;
      params := loaded.value.params;
      history := history + [name];
      loads := loads + 1;
    }

    /** `generate_images(text, seeds)`: tokenize once, which raises when the
        tokens do not fit, encode once, then one image per seed, in order. */
    method GenerateImages(tokenize: Tokenize, sample: Sample, text: string, seeds: seq<int>)
      returns (result: Result<seq<Image>>)
      ensures var tokens := tokenize(tokenizer, text);
        if Fits(tokens, config.maxTextLength) then
          var rows := TokenRows(tokens, config.maxTextLength);
          result == Ok(ImagesForSeeds(sample, decoder, params, rows, EncoderState(encoder, rows), seeds))
        else
          result == Err(TextDoesNotFit(|tokens|, config.maxTextLength))
    {
      var tokens := tokenize(tokenizer, text);
      if !Fits(tokens, config.maxTextLength) {
        return Err(TextDoesNotFit(|tokens|, config.maxTextLength));
      }
      var textTokens := TokenizeText(tokens, config.maxTextLength);
      var rows := Snapshot(textTokens);
      var state := EncoderState(encoder, rows);
      result := Ok(ImagesForSeeds(sample, decoder, params, rows, state, seeds));
    }

    /** `AppModel.run`: select the variant, draw images for the seeds
        `seed, seed + 1, ..., seed + nrows * ncols - 1` and tile them into an
        nrows x ncols grid. The grid comes back with the list of images. */
    method Run(tokenize: Tokenize, sample: Sample, text: string, name: string,
               seed: int, nrows: nat, ncols: nat, ghost h: nat, ghost w: nat)
      returns (result: Result<(array3<Byte>, seq<Image>)>)
      requires Valid()
      requires 0 < nrows && 0 < ncols
      requires SamplesHaveShape(sample, h, w)
      modifies this
      ensures Valid()
      // the selection step is that of set_model, and happens first
      ensures modelName == SelectedAfter(old(modelName), [name], checkpoints.Keys)
      ensures history == old(history) + LoadsAfter(old(modelName), [name], checkpoints.Keys)
      ensures name !in Variants ==> result == Err(UnknownVariant(name))
      ensures name in Variants && name != old(modelName) && name !in checkpoints ==>
        result == Err(LoadFailed(name))
      // once a variant is selected, only a prompt that does not fit fails
      ensures name in Variants && (name == old(modelName) || name in checkpoints) ==>
        var tokens := tokenize(tokenizer, text);
        (result.Ok? <==> Fits(tokens, config.maxTextLength)) &&
        (!Fits(tokens, config.maxTextLength) ==>
           result == Err(TextDoesNotFit(|tokens|, config.maxTextLength)))
      // on success: one image per seed, in seed order, tiled into the grid
      ensures result.Ok? ==>
        var (grid, images) := result.value;
        var rows := TokenRows(tokenize(tokenizer, text), config.maxTextLength);
        images == ImagesForSeeds(sample, decoder, params, rows, EncoderState(encoder, rows),
                                 SeedRange(seed, nrows * ncols)) &&
        |images| == nrows * ncols &&
        Placeable(images, nrows, ncols) &&
        grid.Length0 == h * nrows && grid.Length1 == w * ncols && grid.Length2 == Channels &&
        forall y, x, c :: 0 <= y < grid.Length0 && 0 <= x < grid.Length1 && 0 <= c < Channels ==>
          grid[y, x, c] == GridValue(images, nrows, ncols, y, x, c)
    {
      var outcome := SetModel(name);
      if outcome.Fail? {
        return Err(outcome.error);
      }
      var seeds := SeedRange(seed, nrows * ncols);
      var generated := GenerateImages(tokenize, sample, text, seeds);
      if generated.Err? {
        return Err(generated.error);
      }
      var images := generated.value;
      UniformImagesPlaceable(images, nrows, ncols, h, w);
      var grid := MakeGrid(images, nrows, ncols);
      result := Ok((grid, images));
    }
  }

  /** A model on dalle-mini whose dalle-mega files do not load. Under
      `set_model` as written, the failed switch to dalle-mega renames the
      model and the repeated request returns without loading: the model is
      then called dalle-mega and holds only dalle-mini's objects. */
  method StaleAfterFailedLoad() returns (m: Model, first: Outcome, second: Outcome)
    ensures first == Fail(LoadFailed("dalle-mega")) && second == Pass
    ensures m.modelName == "dalle-mega"
    ensures m.tokenizer.variant == "dalle-mini" && m.encoder.variant == "dalle-mini" &&
            m.decoder.variant == "dalle-mini" && m.params.variant == "dalle-mini"
  {
    m := new Model(map["dalle-mini" := Config(64)]);
    first := m.SetModelAsWritten("dalle-mega");
    second := m.SetModelAsWritten("dalle-mega");
  }

  /** The same requests under the corrected `set_model` keep the model on
      dalle-mini, and the repeated request tries the load again. */
  method FailedLoadKeepsSelection() returns (m: Model, first: Outcome, second: Outcome)
    ensures first == Fail(LoadFailed("dalle-mega")) && second == Fail(LoadFailed("dalle-mega"))
    ensures m.modelName == "dalle-mini"
    ensures m.tokenizer.variant == "dalle-mini" && m.encoder.variant == "dalle-mini" &&
            m.decoder.variant == "dalle-mini" && m.params.variant == "dalle-mini"
  {
    m := new Model(map["dalle-mini" := Config(64)]);
    first := m.SetModel("dalle-mega");
    second := m.SetModel("dalle-mega");
  }
}
