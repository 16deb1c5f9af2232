# min-dalle demo: the model wrapper, verified

A Dafny model of the logic that the min(DALL·E) demo owns itself, all of it
in `model.py`:

- **Picking a model variant.** `Model.__init__` loads a variant. `Model.set_model`
  rejects names other than `dalle-mini` and `dalle-mega`. It does nothing when
  the name is already loaded. Otherwise it loads the new variant and replaces
  the configuration, tokenizer, encoder, decoder and parameters with what
  that one load returns. A load can raise, for example when a variant's
  files are missing; what `set_model` then leaves behind is under
  "Findings".
- **Building the encoder input.** `Model.tokenize_text` packs the prompt's
  token ids into a `2 x max_text_length` `int32` array padded with 1. Row 0
  holds the tokens. Row 1 holds the first and the last token.
- **Generating images.** `Model.generate_images` draws one image per seed, in
  seed order. `AppModel.run` selects the variant, uses the seeds
  `seed .. seed + nrows*ncols - 1`, and tiles the images with `make_grid`.
- **Tiling.** `make_grid` allocates a zeroed `(h*nrows) x (w*ncols) x 3`
  `uint8` grid, where `h x w` is the shape of the first image. It pastes image
  `ncols*i + j` into block `(i, j)` and stops a block row (`break`) at the
  first missing image.

Files:

- `grid.dfy` (module `Grid`): `make_grid`. The grid is an `array3<Byte>` filled
  in place. `GridValue` states what every pixel must hold. Lemmas turn that
  into block form: each block is its image, blocks with no image stay zero,
  blocks are disjoint and cover the grid, and images after `nrows*ncols`
  never appear.
- `text_tokens.dfy` (module `TextTokens`): `tokenize_text` over an
  `array2<Int32>`, specified by the function `TokenRows`.
- `dalle_model.dfy` (module `DalleModel`): the class `Model`, with fields
  `modelName`, `config`, `tokenizer`, `encoder`, `decoder` and `params`. It has
  a load counter and a ghost history of loaded variants. The functions
  `LoadsAfter` and `SelectedAfter` describe what a series of `set_model` calls
  loads. The class holds `set_model` twice: `SetModelAsWritten`, as the
  source has it, and `SetModel`, the corrected one that the rest of the
  model uses. It also holds `GenerateImages` and `Run`.

What the wrapper calls into is outside the model and enters as a parameter
or an opaque value:

- `load_model` is the function `LoadModel`. Each object it builds is a
  `Component` that records the variant and which load built it. The
  constructor parameter `checkpoints` maps each variant whose files load to
  its configuration. `LoadModel` returns `None`, standing for the raise,
  for any other variant.
- The BPE tokenizer is the parameter `tokenize`.
- The encoder's output is a symbolic `EncoderState`.
- Sampling image tokens and decoding them to pixels is the parameter
  `sample`.

`AppModel` subclasses `Model` and adds only `run`, so both are one Dafny
class, `Model`, which has a `Run` method.

## Model

| member | source | states |
|---|---|---|
| `Grid.MakeGrid` | model.py:109-118 | the grid has shape (h*nrows, w*ncols, 3), with h, w taken from the first image; every pixel equals `GridValue`. Requires a first image, and the exact shape for every image that gets placed |
| `Grid.FillBlockRow` | model.py:113-117 | one pass of the inner loop, `break` included: if the block rows above i are done and the rest is zero, then afterwards block row i is done too and the rows below are still zero |
| `Grid.PasteBlock` | model.py:117 | slice assignment: the h x w rectangle at (top, left) becomes the image; every other pixel keeps its value |
| `Grid.BlockContents` | model.py:112-117 | block (i, j) equals image ncols*i+j pixel for pixel, or is all zeros when that image does not exist |
| `Grid.PastedBlockMatches` | model.py:114-117 | what pasting image ncols*i+j at (h*i, w*j) writes is exactly the intended content of block (i, j) |
| `Grid.RestOfRowEmpty` | model.py:114-116 | once image ncols*i+j is missing, every later block of block row i should be zero, so the `break` skips only writes of zeros |
| `Grid.BlocksDisjoint` | model.py:117 | the rectangles `[h*i, h*(i+1)) x [w*j, w*(j+1))` that pasting blocks (i, j) and (i', j') writes share a pixel only when (i, j) == (i', j'), so each grid pixel is written by at most one paste |
| `Grid.BlockImagesDistinct` | model.py:113-114 | two different blocks (i, j) != (i', j') with j, j' < ncols get different image indices ncols*i+j |
| `Grid.BlockOfPosition` | model.py:111-117 | blocks cover the grid: every coordinate below size*count lies in a block numbered below count |
| `Grid.CellIndexBound` | model.py:112-114 | the image index ncols*i+j of any block is below nrows*ncols |
| `Grid.OnlyLeadingImagesShown` | model.py:112-117 | images at index nrows*ncols or later never appear: the grid equals the grid of the first nrows*ncols images |
| `Grid.FullyPopulated` | model.py:125-127 | with at least nrows*ncols images, as `run` supplies, every block (i, j) comes from image ncols*i+j and none stays zero |
| `TextTokens.TokenRows` | model.py:79-82 | two rows of length max_text_length. Row 0 is the tokens followed by 1s. Row 1 is first token, last token, then 1s |
| `TextTokens.TokenizeText` | model.py:77-83 | the array has shape (2, max_text_length) and holds exactly `TokenRows`. Requires 1 <= len(tokens) <= max_text_length and max_text_length >= 2, the cases the numpy writes accept |
| `TextTokens.SingleTokenRow` | model.py:82 | for a one-token prompt, both entries of row 1 are that token |
| `TextTokens.Row0Determines` | model.py:81 | row 0 gives back the tokens (they are row 0 without its trailing 1s) when the last token is not 1 |
| `DalleModel.LoadsAreChanges` | model.py:32-43 | every load triggered by `set_model` is of a known variant whose files load, and differs from the variant loaded before it |
| `DalleModel.LastLoadIsSelected` | model.py:34-36 | after a series of `set_model` calls, the selected variant is the last one loaded, or the starting one when nothing was loaded |
| `DalleModel.LoadsAfterAppend` | model.py:32-43 | loads and selection compose over consecutive batches of `set_model` calls |
| `DalleModel.RepeatedRequestLoadsNothing` | model.py:34-35 | asking for the same variant twice in a row loads it at most once |
| `DalleModel.SeedRange` | model.py:125 | `range(seed, seed + count)`: count seeds, entry k being seed + k |
| `DalleModel.ImagesForSeeds` | model.py:103-106 | one image per seed, in seed order: image k is the sample for seed k |
| `DalleModel.Model.constructor` | model.py:22-30 | the model loads the given variant once (default `dalle-mini`) and holds that load's five objects. Requires that the load succeeds: when it raises, no model exists |
| `DalleModel.Model.SetModelAsWritten` | model.py:32-43 | fails on an unknown name; does nothing on the current name; otherwise switches the name first, then either one new load replaces all five objects or the load fails and the previous objects stay |
| `DalleModel.StaleAfterFailedLoad` | model.py:34-38 | from `dalle-mini`, with `dalle-mega` not loadable: the first `set_model('dalle-mega')` fails, the second passes without loading, and the model is named `dalle-mega` while holding `dalle-mini`'s objects |
| `DalleModel.Model.SetModel` | model.py:32-43 | as `SetModelAsWritten`, but a failed load leaves everything unchanged. The name always names the variant of all four loaded components, the history grows by `LoadsAfter` and the object invariant holds |
| `DalleModel.FailedLoadKeepsSelection` | model.py:34-38 | the same two requests under `SetModel` both fail with `LoadFailed`, and the model stays on `dalle-mini` with `dalle-mini`'s objects |
| `DalleModel.Model.GenerateImages` | model.py:100-106 | tokenize once, failing with `TextDoesNotFit` exactly when the tokens do not fit; otherwise encode once, then one image per seed in seed order, all drawn from the same text tokens and encoder state |
| `DalleModel.Model.Run` | model.py:122-128 | the variant is selected first, with `set_model`'s failures. Once it is selected, the request fails exactly when the prompt does not fit. On success the images are those of seeds seed .. seed+nrows*ncols-1 in order, and the grid of shape (h*nrows, w*ncols, 3) holds `GridValue` of those images |

## Left out

- `load_model` internals (model.py:45-75): the `DALLE_MODEL_DIR` lookup, reading metadata and weights from disk, and building the Flax modules. Each load is the opaque `LoadModel`. Of the configuration, only `max_text_length` is kept, because it is the only entry this core reads.
- Encoding, decoding and detokenizing (model.py:85-98) are external tensor computations with JAX random keys. The encoder's output is a symbolic value and the decoder is the parameter `sample`.
- The BPE tokenizer call (model.py:78) is external. Its output is given by the parameter `tokenize`.
- numpy broadcasting: a slice assignment also accepts shapes that broadcast to h x w x 3. The model requires the exact shape for every placed image. Other shape mismatches, which numpy raises on, are preconditions.
- numpy dtype conversion: pixels are taken to be `uint8` values (`Byte`) and token ids `int32` values (`Int32`). Conversions from other dtypes are not modelled.
- `DalleModel.Model.Run`: requires nrows, ncols >= 1, the range of the UI sliders. With nrows*ncols == 0 the source raises on `images[0]`.
- `DalleModel.Model.Run`: requires that every sampled image has one shape h x w x 3, a property of the external decoder.
- `DalleModel.Model.Run`: a prompt whose tokens do not fit makes numpy raise inside `tokenize_text`. The model returns `Err(TextDoesNotFit)`, after `set_model` has already taken effect, as in the source.
- `DalleModel.Model.Run` uses the corrected `SetModel`, so it does not reproduce the stale state listed under "Findings".
- Whether a variant's files load is fixed per model by `checkpoints`. A load that fails once and succeeds later, for example after the files are downloaded, is not modelled.
- `DalleModel.Model.constructor`: requires that the initial load succeeds. When `__init__`'s load raises, the caller gets no object.
- A failed `assert` in `set_model` becomes `Fail(UnknownVariant)`. Running Python with assertions disabled is not modelled.
- `MakeGrid` and `TokenizeText` return arrays without stating that those arrays are fresh.
- All of app.py: the UI widgets, reading `samples.txt`, and `demo.launch`. It is UI and I/O.

## Findings

| source | as written | input that shows it | evidently intended | confidence | as-written member | corrected member |
|---|---|---|---|---|---|---|
| model.py:36-38 | `self.model_name = model_name` is assigned before `self.load_model(...)` runs | a model on `dalle-mini` whose `dalle-mega` files fail to load: `set_model('dalle-mega')` raises, then a second `set_model('dalle-mega')` returns at line 35 without loading, and the model is named `dalle-mega` while it still holds `dalle-mini`'s configuration, tokenizer, encoder, decoder and parameters | assign `model_name` only after `load_model` has returned, so the name always names the loaded variant | medium; not executed | `DalleModel.Model.SetModelAsWritten`, `DalleModel.StaleAfterFailedLoad` | `DalleModel.Model.SetModel`, `DalleModel.FailedLoadKeepsSelection` |
