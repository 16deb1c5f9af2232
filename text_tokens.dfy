/** Packing a prompt's tokens into the encoder's input (`Model.tokenize_text`
    in model.py).

    The encoder takes a 2 x max_text_length array of 32-bit token ids,
    padded with 1. Row 0 holds the prompt's tokens, row 1 only its first
    and its last token. The tokenizer itself is not part of this model: its
    output arrives here as a sequence of ids. */
module TextTokens {

  /** A numpy `int32` value. */
  type Int32 = x: int | -0x8000_0000 <= x < 0x8000_0000

  /** The value `np.ones` fills the array with. */
  const Pad: Int32 := 1

  /** What the numpy writes of `tokenize_text` need: `tokens[0]` exists,
      `tokens` fits in row 0, and row 1 has room for two entries. */
  predicate Fits(tokens: seq<Int32>, maxTextLength: nat) {
    1 <= |tokens| <= maxTextLength && 2 <= maxTextLength
  }

  function Padding(n: nat): seq<Int32> {
    seq(n, _ => Pad)
  }

  /** The two rows of the encoder input for `tokens`. */
  function TokenRows(tokens: seq<Int32>, maxTextLength: nat): (rows: seq<seq<Int32>>)
    requires Fits(tokens, maxTextLength)
    ensures |rows| == 2 && |rows[0]| == maxTextLength && |rows[1]| == maxTextLength
    // row 0 is the tokens, then padding
    ensures rows[0][..|tokens|] == tokens
    ensures forall k :: |tokens| <= k < maxTextLength ==> rows[0][k] == Pad
    // row 1 is the first and the last token, then padding
    ensures rows[1][0] == tokens[0] && rows[1][1] == tokens[|tokens| - 1]
    ensures forall k :: 2 <= k < maxTextLength ==> rows[1][k] == Pad
  {
    [tokens + Padding(maxTextLength - |tokens|),
     [tokens[0], tokens[|tokens| - 1]] + Padding(maxTextLength - 2)]
  }

  /** For a one-token prompt both entries of row 1 are that token. */
  lemma SingleTokenRow(token: Int32, maxTextLength: nat)
    requires 2 <= maxTextLength
    ensures TokenRows([token], maxTextLength)[1][..2] == [token, token]
  {
    var row := TokenRows([token], maxTextLength)[1];
    assert row[..2] == [row[0], row[1]];
  }

  /** Row 0 determines the prompt's tokens when the last token is not the
      padding value: they are row 0 without its trailing padding. */
  lemma Row0Determines(a: seq<Int32>, b: seq<Int32>, maxTextLength: nat)
    requires Fits(a, maxTextLength) && Fits(b, maxTextLength)
    requires a[|a| - 1] != Pad && b[|b| - 1] != Pad
    requires TokenRows(a, maxTextLength)[0] == TokenRows(b, maxTextLength)[0]
    ensures a == b
  {
    var row := TokenRows(a, maxTextLength)[0];
    assert |a| == |b| by {
      assert row[|a| - 1] == a[|a| - 1] && row[|b| - 1] == b[|b| - 1];
    }
  }

  /** The values of a two-dimensional array, row by row. */
  function Snapshot(t: array2<Int32>): seq<seq<Int32>>
    reads t
  {
    seq(t.Length0, r requires 0 <= r < t.Length0 reads t =>
      seq(t.Length1, k requires 0 <= k < t.Length1 reads t => t[r, k]))
  }

  /** `tokenize_text` after the tokenizer call: an array of ones of shape
      (2, max_text_length), then `text_tokens[0, :len(tokens)] = tokens` and
      `text_tokens[1, :2] = [tokens[0], tokens[-1]]`. */
  method TokenizeText(tokens: seq<Int32>, maxTextLength: nat) returns (t: array2<Int32>)
    requires Fits(tokens, maxTextLength)
    ensures t.Length0 == 2 && t.Length1 == maxTextLength
    ensures Snapshot(t) == TokenRows(tokens, maxTextLength)
  {
    t := new Int32[2, maxTextLength]((_, _) => Pad);
    for k := 0 to |tokens|
      invariant forall r, m :: 0 <= r < 2 && 0 <= m < maxTextLength ==>
        t[r, m] == if r == 0 && m < k then tokens[m] else Pad
    {
      t[0, k] := tokens[k];
    }
    t[1, 0], t[1, 1] := tokens[0], tokens[|tokens| - 1];
    var want := TokenRows(tokens, maxTextLength);
    forall r, m | 0 <= r < 2 && 0 <= m < maxTextLength
      ensures t[r, m] == want[r][m]
    {
      if r == 0 && m < |tokens| {
        assert want[0][..|tokens|][m] == tokens[m];
      }
    }
    assert Snapshot(t)[0] == want[0];
    assert Snapshot(t)[1] == want[1];
  }
}
