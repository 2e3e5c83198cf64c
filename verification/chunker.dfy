/**
 * The chunker (`split_long_text`): a text longer than the content budget is
 * cut into contiguous slices of at most `maxLength` code points, each sent
 * behind a header `[CZĘŚĆ i/n]` and a line break; a text that fits is sent as
 * it is. `Reassemble` is the receiving side's inverse.
 */
module Chunker {
  import opened Strings
  import opened Wrappers

  lemma MulLe(a: nat, b: nat, m: nat)
    requires a <= b
    ensures a * m <= b * m
  {
  }

  /** Python's `ceil(a / b)` for naturals. */
  function CeilDiv(a: nat, b: nat): (q: nat)
    requires b > 0
    ensures q * b >= a
    ensures a > 0 ==> (q - 1) * b < a
    ensures a > b ==> q >= 2
  {
    (a + b - 1) / b
  }

  /** The header in front of part `index` (counting from 1) of `total`. */
  function Header(index: nat, total: nat): string
  {
    "[CZĘŚĆ " + NatToString(index) + "/" + NatToString(total) + "]\n"
  }

  /** Python's `text[start:start + m]` with `start = i * m`: both ends are clamped to the text. */
  function Slice(text: string, i: nat, m: nat): string
  {
    text[Min(i * m, |text|)..Min(i * m + m, |text|)]
  }

  /** What `split_long_text(text, m)` returns. */
  function Chunks(text: string, m: nat): seq<string>
    requires m > 0
  {
    if |text| <= m then [text]
    else
      var n := CeilDiv(|text|, m);
      seq(n, i requires 0 <= i < n => Header(i + 1, n) + Slice(text, i, m))
  }

  /** `split_long_text`, with its loop. */
  method SplitLongText(text: string, maxLength: nat) returns (parts: seq<string>)
    requires maxLength > 0
    ensures parts == Chunks(text, maxLength)
  {
    if |text| <= maxLength {
      return [text];
    }
    var numParts := CeilDiv(|text|, maxLength);
    parts := [];
    for i := 0 to numParts
      invariant |parts| == i
      invariant forall k :: 0 <= k < i ==> parts[k] == Header(k + 1, numParts) + Slice(text, k, maxLength)
    {
      var start := i * maxLength;
      var end := start + maxLength;
      var partContent := text[Min(start, |text|)..Min(end, |text|)];
      var partHeader := Header(i + 1, numParts);
      parts := parts + [partHeader + partContent];
    }
  }

  // ---------------------------------------------------------------------
  // The receiving side: reading headers back and joining the payloads

  /** What a part's header says, and the text after it. */
  datatype Tag = Tag(index: nat, total: nat, payload: string)

  const HeaderStart: string := "[CZĘŚĆ "

  /** The length of the run of decimal digits at the front of `s`. */
  function DigitRun(s: string): (k: nat)
    ensures k <= |s| && AllDigits(s[..k])
    ensures k < |s| ==> !IsDigit(s[k])
  {
    if s != [] && IsDigit(s[0]) then 1 + DigitRun(s[1..]) else 0
  }

  /** A number read from the front of a text, and what follows its terminator. */
  datatype Read = Read(value: nat, rest: string)

  /** Reads a non-empty run of digits that `stop` ends. */
  function ReadNumber(s: string, stop: char): Option<Read>
  {
    var k := DigitRun(s);
    if k == 0 || k == |s| || s[k] != stop then None else Some(Read(DigitsValue(s[..k]), s[k + 1..]))
  }

  /** Reads the header of a part; `None` when the part does not start with one. */
  function ParsePart(part: string): Option<Tag>
  {
    if !StartsWith(part, HeaderStart) then None
    else match ReadNumber(part[|HeaderStart|..], '/')
      case None => None
      case Some(i) =>
        match ReadNumber(i.rest, ']')
        case None => None
        case Some(t) => if t.rest != [] && t.rest[0] == '\n' then Some(Tag(i.value, t.value, t.rest[1..])) else None
  }

  /** The header of every part, read in order. */
  function ReadTags(parts: seq<string>): (tags: seq<Option<Tag>>)
    ensures |tags| == |parts|
  {
    seq(|parts|, k requires 0 <= k < |parts| => ParsePart(parts[k]))
  }

  /**
   * Joins the payloads behind `tags`, which must say parts `offset + 1`,
   * `offset + 2`, ... of `total`, in that order.
   */
  function JoinTags(tags: seq<Option<Tag>>, total: nat, offset: nat): Option<string>
    decreases |tags|
  {
    if tags == [] then Some([])
    else match tags[0]
      case None => None
      case Some(t) =>
        if t.index != offset + 1 || t.total != total then None
        else match JoinTags(tags[1..], total, offset + 1)
          case None => None
          case Some(rest) => Some(t.payload + rest)
  }

  /**
   * The text a sequence of sent parts stands for: a single part is the text
   * itself; several must be numbered 1..n of n in order, and their payloads
   * are joined.
   */
  function Reassemble(parts: seq<string>): Option<string>
  {
    if |parts| == 1 then Some(parts[0]) else JoinTags(ReadTags(parts), |parts|, 0)
  }

  // ---------------------------------------------------------------------
  // Lemmas

  lemma {:induction false} DigitRunOfDigits(d: string, t: string)
    requires AllDigits(d)
    requires t == [] || !IsDigit(t[0])
    ensures DigitRun(d + t) == |d|
  {
    if d != [] {
      assert (d + t)[1..] == d[1..] + t;
      DigitRunOfDigits(d[1..], t);
    }
  }

  lemma ReadNumberOf(n: nat, stop: char, t: string)
    requires !IsDigit(stop)
    ensures ReadNumber(NatToString(n) + [stop] + t, stop) == Some(Read(n, t))
  {
    var d := NatToString(n);
    var s := d + [stop] + t;
    assert s == d + ([stop] + t);
    DigitRunOfDigits(d, [stop] + t);
    assert s[..|d|] == d;
    assert s[|d| + 1..] == t;
    DigitsValueOfNatToString(n);
  }

  /** A header reads back as the index and total it was written with. */
  lemma ParseHeader(index: nat, total: nat, payload: string)
    ensures ParsePart(Header(index, total) + payload) == Some(Tag(index, total, payload))
  {
    var part := Header(index, total) + payload;
    var afterTotal := "\n" + payload;
    var afterIndex := NatToString(total) + "]" + afterTotal;
    assert part == HeaderStart + (NatToString(index) + "/" + afterIndex);
    assert part[|HeaderStart|..] == NatToString(index) + "/" + afterIndex;
    ReadNumberOf(index, '/', afterIndex);
    ReadNumberOf(total, ']', afterTotal);
  }

  /** Every part of a long text is its header followed by the `i`-th slice. */
  lemma ChunkAt(text: string, m: nat, i: nat)
    requires m > 0 && |text| > m
    requires i < |Chunks(text, m)|
    ensures Chunks(text, m)[i] == Header(i + 1, |Chunks(text, m)|) + Slice(text, i, m)
  {
  }

  /**
   * Splitting gives one part exactly when the text fits; otherwise it gives
   * ceil(|text| / m) parts: enough to hold the text, with no part to spare.
   */
  lemma ChunkCount(text: string, m: nat)
    requires m > 0
    ensures |Chunks(text, m)| >= 1
    ensures Chunks(text, m) == [text] <==> |text| <= m
    ensures |text| > m ==> |Chunks(text, m)| >= 2
    ensures |text| > m ==> |Chunks(text, m)| * m >= |text| > (|Chunks(text, m)| - 1) * m
  {
    if |text| > m {
      var n := CeilDiv(|text|, m);
      assert |Chunks(text, m)| == n;
    }
  }

  /**
   * In a long text's split, every slice holds between 1 and `m` code points,
   * all but the last hold exactly `m`, and slice `i` starts at `i * m`.
   */
  lemma ChunkSizes(text: string, m: nat, i: nat)
    requires m > 0 && |text| > m
    requires i < |Chunks(text, m)|
    ensures 1 <= |Slice(text, i, m)| <= m
    ensures i < |Chunks(text, m)| - 1 ==> |Slice(text, i, m)| == m
    ensures i * m < |text| && Slice(text, i, m) == text[i * m..i * m + |Slice(text, i, m)|]
  {
    var n := |Chunks(text, m)|;
    ChunkCount(text, m);
    MulLe(i, n - 1, m);
    if i < n - 1 {
      MulLe(i + 1, n - 1, m);
    }
  }

  lemma SliceThenRest(text: string, lo: int, hi: int)
    requires 0 <= lo <= hi <= |text|
    ensures text[lo..hi] + text[hi..] == text[lo..]
  {
  }

  lemma MulSucc(j: nat, m: nat)
    ensures (j + 1) * m == j * m + m
  {
  }

  /** The strings of `ss` one after the other. */
  function Concat(ss: seq<string>): string
  {
    if ss == [] then [] else ss[0] + Concat(ss[1..])
  }

  /** Tags that say parts `j + 1..n` of `n`, in order, join to their payloads. */
  lemma {:induction false} JoinTagsInOrder(tags: seq<Option<Tag>>, payloads: seq<string>, j: nat)
    requires |payloads| == |tags| && j <= |tags|
    requires forall k :: 0 <= k < |tags| ==> tags[k] == Some(Tag(k + 1, |tags|, payloads[k]))
    ensures JoinTags(tags[j..], |tags|, j) == Some(Concat(payloads[j..]))
    decreases |tags| - j
  {
    if j == |tags| {
      assert tags[j..] == [] && payloads[j..] == [];
    } else {
      JoinTagsInOrder(tags, payloads, j + 1);
      assert tags[j..][0] == tags[j];
      assert tags[j..][1..] == tags[j + 1..];
      assert payloads[j..][0] == payloads[j];
      assert payloads[j..][1..] == payloads[j + 1..];
    }
  }

  /** Every part of a long text's split reads back as its place and its slice. */
  lemma ChunksRead(text: string, m: nat)
    requires m > 0 && |text| > m
    ensures forall k :: 0 <= k < |Chunks(text, m)| ==>
      ReadTags(Chunks(text, m))[k] == Some(Tag(k + 1, |Chunks(text, m)|, Slice(text, k, m)))
  {
    var parts := Chunks(text, m);
    forall k | 0 <= k < |parts|
      ensures ReadTags(parts)[k] == Some(Tag(k + 1, |parts|, Slice(text, k, m)))
    {
      ChunkAt(text, m, k);
      ParseHeader(k + 1, |parts|, Slice(text, k, m));
    }
  }

  /** The slices from the `j`-th on, put back together, are the text from `j * m` on. */
  lemma {:induction false} ConcatSlices(text: string, m: nat, slices: seq<string>, j: nat, start: nat)
    requires m > 0 && j <= |slices| && start == j * m && |slices| * m >= |text|
    requires forall k :: 0 <= k < |slices| ==> slices[k] == Slice(text, k, m)
    ensures Concat(slices[j..]) == text[Min(start, |text|)..]
    decreases |slices| - j
  {
    if j == |slices| {
      assert slices[j..] == [];
      assert start >= |text|;
    } else {
      var lo, hi := Min(start, |text|), Min(start + m, |text|);
      assert slices[j] == text[lo..hi];
      MulSucc(j, m);
      ConcatSlices(text, m, slices, j + 1, start + m);
      assert slices[j..][0] == slices[j];
      assert slices[j..][1..] == slices[j + 1..];
      SliceThenRest(text, lo, hi);
    }
  }

  /** Reassembling the parts of a split gives back the text. */
  lemma ReassembleChunks(text: string, m: nat)
    requires m > 0
    ensures Reassemble(Chunks(text, m)) == Some(text)
  {
    ChunkCount(text, m);
    if |text| > m {
      var parts := Chunks(text, m);
      var tags := ReadTags(parts);
      var slices := seq(|parts|, k requires 0 <= k < |parts| => Slice(text, k, m));
      ChunksRead(text, m);
      JoinTagsInOrder(tags, slices, 0);
      ConcatSlices(text, m, slices, 0, 0);
      assert tags[0..] == tags && slices[0..] == slices;
    }
  }
}
