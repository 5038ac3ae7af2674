/** Splitting a document into chunks for retrieval: internal/rag/chunk.go. Strings are sequences of runes. */
module Chunk {
  import opened Wrappers
  import opened Text

  /** From coarse to fine; the empty one stands for cutting by size. */
  const SEPARATORS: seq<string> := ["\n\n", "\n", "\U{3002}", "\U{FF0C}", " ", ""]

  predicate IsSeparatorRune(c: char) {
    c == '\n' || c == '\U{3002}' || c == '\U{FF0C}' || c == ' '
  }

  predicate OnlySeparators(s: string) {
    forall i :: 0 <= i < |s| ==> IsSeparatorRune(s[i])
  }

  /** What the callers owe: the code slices out of range for a negative overlap and never ends for no length at all. */
  predicate Sane(maxLen: int, overlap: int) {
    1 <= maxLen && 0 <= overlap
  }

  // ---- The algorithm over values

  function StepOf(maxLen: int, overlap: int): int {
    if maxLen - overlap <= 0 then maxLen else maxLen - overlap
  }

  function SplitBySize(runes: string, maxLen: int, overlap: int): seq<string>
    requires Sane(maxLen, overlap)
    decreases |runes|
  {
    if runes == [] then []
    else if |runes| <= maxLen then [runes]
    else [runes[..maxLen]] + SplitBySize(runes[StepOf(maxLen, overlap)..], maxLen, overlap)
  }

  function WithOverlap(chunks: seq<string>, i: nat, maxLen: int, overlap: int): string
    requires Sane(maxLen, overlap) && i < |chunks|
  {
    if i > 0 && |chunks[i]| < maxLen && |chunks[i-1]| > overlap
    then chunks[i-1][|chunks[i-1]| - overlap..] + chunks[i]
    else chunks[i]
  }

  function AddOverlap(chunks: seq<string>, maxLen: int, overlap: int): seq<string>
    requires Sane(maxLen, overlap)
  {
    seq(|chunks|, i requires 0 <= i < |chunks| => WithOverlap(chunks, i, maxLen, overlap))
  }

  /** The first separator that splits the text, or the empty one. */
  function FindSeparator(text: string, separators: seq<string>): (sep: string)
    ensures sep == "" || (sep in separators && |Split(text, sep)| > 1)
  {
    if separators == [] || separators[0] == "" then ""
    else if |Split(text, separators[0])| > 1 then separators[0]
    else FindSeparator(text, separators[1..])
  }

  predicate Shorter(parts: seq<string>, bound: nat) {
    forall i :: 0 <= i < |parts| ==> |parts[i]| < bound
  }

  lemma SplitShortens(text: string, sep: string)
    requires sep != "" && |Split(text, sep)| > 1
    ensures Shorter(Split(text, sep), |text|)
  {
    forall i | 0 <= i < |Split(text, sep)| ensures |Split(text, sep)[i]| < |text| {
      PartsAreShorter(text, sep, i);
    }
  }

  function RecursiveSplit(text: string, maxLen: int, overlap: int): seq<string>
    requires Sane(maxLen, overlap)
    decreases |text|
  {
    if |text| <= maxLen then (if text == [] then [] else [text])
    else
      var sep := FindSeparator(text, SEPARATORS);
      if sep == "" then SplitBySize(text, maxLen, overlap)
      else
        SplitShortens(text, sep);
        AddOverlap(SplitParts(Split(text, sep), |text|, maxLen, overlap), maxLen, overlap)
  }

  function SplitParts(parts: seq<string>, bound: nat, maxLen: int, overlap: int): seq<string>
    requires Sane(maxLen, overlap) && Shorter(parts, bound)
    decreases bound, |parts|
  {
    if parts == [] then []
    else RecursiveSplit(parts[0], maxLen, overlap) + SplitParts(parts[1..], bound, maxLen, overlap)
  }

  lemma Associative<T>(a: seq<T>, b: seq<T>, c: seq<T>)
    ensures a + b + c == a + (b + c)
  {
  }

  lemma CutAt(runes: string, i: nat, maxLen: int, overlap: int)
    requires Sane(maxLen, overlap) && i < |runes|
    ensures SplitBySize(runes[i..], maxLen, overlap) ==
            if i + maxLen >= |runes| then [runes[i..|runes|]]
            else [runes[i..i+maxLen]] + SplitBySize(runes[i+StepOf(maxLen, overlap)..], maxLen, overlap)
  {
    assert runes[i..|runes|] == runes[i..];
    if i + maxLen < |runes| {
      assert runes[i..][..maxLen] == runes[i..i+maxLen];
      assert runes[i..][StepOf(maxLen, overlap)..] == runes[i+StepOf(maxLen, overlap)..];
    }
  }

  // ---- The code's loops

  method CutBySize(runes: string, maxLen: int, overlap: int) returns (result: seq<string>)
    requires Sane(maxLen, overlap)
    ensures result == SplitBySize(runes, maxLen, overlap)
  {
    result := [];
    var step := maxLen - overlap;
    if step <= 0 { step := maxLen; }
    var i := 0;
    ghost var rest := SplitBySize(runes, maxLen, overlap);
    assert runes[0..] == runes;
    while i < |runes|
      invariant 0 <= i <= |runes|
      invariant rest == SplitBySize(runes[i..], maxLen, overlap)
      invariant result + rest == SplitBySize(runes, maxLen, overlap)
      decreases |runes| - i
    {
      var end := i + maxLen;
      if end > |runes| { end := |runes|; }
      CutAt(runes, i, maxLen, overlap);
      Associative(result, [runes[i..end]], rest[1..]);
      result := result + [runes[i..end]];
      if end == |runes| { return; }
      rest := rest[1..];
      i := i + step;
    }
  }

  method JoinNeighbours(chunks: seq<string>, maxLen: int, overlap: int) returns (result: seq<string>)
    requires Sane(maxLen, overlap)
    ensures result == AddOverlap(chunks, maxLen, overlap)
  {
    if |chunks| <= 1 { return chunks; }
    result := [];
    for i := 0 to |chunks|
      invariant result == AddOverlap(chunks, maxLen, overlap)[..i]
    {
      var ch := chunks[i];
      if i > 0 && |ch| < maxLen {
        var prev := chunks[i-1];
        if |prev| > overlap { ch := prev[|prev| - overlap..] + ch; }
      }
      result := result + [ch];
    }
  }

  method Divide(text: string, maxLen: int, overlap: int) returns (result: seq<string>)
    requires Sane(maxLen, overlap)
    ensures result == RecursiveSplit(text, maxLen, overlap)
    decreases |text|
  {
    if |text| <= maxLen {
      if |text| == 0 { return []; }
      return [text];
    }
    for s := 0 to |SEPARATORS|
      invariant FindSeparator(text, SEPARATORS) == FindSeparator(text, SEPARATORS[s..])
    {
      var sep := SEPARATORS[s];
      if sep == "" {
        result := CutBySize(text, maxLen, overlap);
        return;
      }
      var parts := Split(text, sep);
      if |parts| > 1 {
        SplitShortens(text, sep);
        result := DivideAll(parts, |text|, maxLen, overlap);
        result := JoinNeighbours(result, maxLen, overlap);
        return;
      }
    }
    result := CutBySize(text, maxLen, overlap);
  }

  /** The inner loop over the parts, with what it owes to termination. */
  method DivideAll(parts: seq<string>, bound: nat, maxLen: int, overlap: int) returns (result: seq<string>)
    requires Sane(maxLen, overlap) && Shorter(parts, bound)
    ensures result == SplitParts(parts, bound, maxLen, overlap)
    decreases bound, 0
  {
    hide RecursiveSplit;
    result := [];
    for k := 0 to |parts|
      invariant result + SplitParts(parts[k..], bound, maxLen, overlap) == SplitParts(parts, bound, maxLen, overlap)
    {
      var chunks := Divide(parts[k], maxLen, overlap);
      assert parts[k..][1..] == parts[k+1..];
      result := result + chunks;
    }
  }

  // ---- Size

  /** The largest chunk there can be: a full one, or one a rune short of full with an overlap before it. */
  function Largest(maxLen: int, overlap: int): int {
    Max(maxLen, maxLen + overlap - 1)
  }

  predicate Fits(chunks: seq<string>, limit: int) {
    forall i :: 0 <= i < |chunks| ==> 1 <= |chunks[i]| <= limit
  }

  lemma {:induction false} CutsFit(runes: string, maxLen: int, overlap: int)
    requires Sane(maxLen, overlap)
    ensures Fits(SplitBySize(runes, maxLen, overlap), maxLen)
    decreases |runes|
  {
    if |runes| > maxLen {
      CutsFit(runes[StepOf(maxLen, overlap)..], maxLen, overlap);
    }
  }

  /** Every chunk is non-empty and no longer than maxLen + overlap - 1 (maxLen when there is no overlap). */
  lemma {:induction false} EveryChunkFits(text: string, maxLen: int, overlap: int)
    requires Sane(maxLen, overlap)
    ensures Fits(RecursiveSplit(text, maxLen, overlap), Largest(maxLen, overlap))
    decreases |text|
  {
    if |text| > maxLen {
      var sep := FindSeparator(text, SEPARATORS);
      if sep == "" {
        CutsFit(text, maxLen, overlap);
      } else {
        SplitShortens(text, sep);
        EveryPartFits(Split(text, sep), |text|, maxLen, overlap);
      }
    }
  }

  lemma {:induction false} EveryPartFits(parts: seq<string>, bound: nat, maxLen: int, overlap: int)
    requires Sane(maxLen, overlap) && Shorter(parts, bound)
    ensures Fits(SplitParts(parts, bound, maxLen, overlap), Largest(maxLen, overlap))
    decreases bound, |parts|
  {
    if parts != [] {
      EveryChunkFits(parts[0], maxLen, overlap);
      EveryPartFits(parts[1..], bound, maxLen, overlap);
    }
  }

  // ---- Which pieces there are: the separators taken one after another

  /** Runes n at a time. */
  function Stretches(s: string, n: int): seq<string>
    requires n > 0
    decreases |s|
  {
    if |s| <= n then (if s == [] then [] else [s]) else [s[..n]] + Stretches(s[n..], n)
  }

  /** A text no separator divides: a full chunk, and then what each further chunk adds to the one before it. */
  function Cores(text: string, maxLen: int, overlap: int): seq<string>
    requires Sane(maxLen, overlap)
  {
    if |text| <= maxLen then (if text == [] then [] else [text])
    else [text[..maxLen]] + Stretches(text[maxLen..], StepOf(maxLen, overlap))
  }

  /** A text that fits is one piece; one that does not is divided at the first separator, its parts at the others. */
  function Leaves(text: string, separators: seq<string>, maxLen: int, overlap: int): seq<string>
    requires Sane(maxLen, overlap) && "" !in separators
    decreases |separators|, 0
  {
    if |text| <= maxLen then (if text == [] then [] else [text])
    else if separators == [] then Cores(text, maxLen, overlap)
    else LeavesOfAll(Split(text, separators[0]), separators[1..], maxLen, overlap)
  }

  function LeavesOfAll(parts: seq<string>, separators: seq<string>, maxLen: int, overlap: int): seq<string>
    requires Sane(maxLen, overlap) && "" !in separators
    decreases |separators|, |parts|
  {
    if parts == [] then []
    else Leaves(parts[0], separators, maxLen, overlap) + LeavesOfAll(parts[1..], separators, maxLen, overlap)
  }

  /** A separator that does not occur changes nothing. */
  lemma LeavesSkip(text: string, separators: seq<string>, maxLen: int, overlap: int)
    requires Sane(maxLen, overlap) && "" !in separators && separators != [] && IndexOf(text, separators[0]) == -1
    ensures Leaves(text, separators, maxLen, overlap) == Leaves(text, separators[1..], maxLen, overlap)
  {
    assert Split(text, separators[0]) == [text] && [text][1..] == [];
    assert LeavesOfAll([text], separators[1..], maxLen, overlap) ==
           Leaves(text, separators[1..], maxLen, overlap) + LeavesOfAll([], separators[1..], maxLen, overlap);
  }

  predicate AllLack(parts: seq<string>, sep: string)
    requires sep != ""
  {
    forall i :: 0 <= i < |parts| ==> IndexOf(parts[i], sep) == -1
  }

  lemma {:induction false} LeavesSkipAll(parts: seq<string>, separators: seq<string>, maxLen: int, overlap: int)
    requires Sane(maxLen, overlap) && "" !in separators && separators != [] && AllLack(parts, separators[0])
    ensures LeavesOfAll(parts, separators, maxLen, overlap) == LeavesOfAll(parts, separators[1..], maxLen, overlap)
  {
    if parts != [] {
      LeavesSkip(parts[0], separators, maxLen, overlap);
      LeavesSkipAll(parts[1..], separators, maxLen, overlap);
    }
  }

  lemma SplitsOrLacks(text: string, sep: string)
    requires sep != ""
    ensures |Split(text, sep)| > 1 <==> IndexOf(text, sep) != -1
  {
  }

  /** Dividing at the first separator that occurs, and the parts from the first separator on again. */
  lemma {:induction false} LeavesFound(text: string, separators: seq<string>, maxLen: int, overlap: int)
    requires Sane(maxLen, overlap) && "" !in separators && |text| > maxLen
    ensures Leaves(text, separators, maxLen, overlap) ==
            var sep := FindSeparator(text, separators);
            if sep == "" then Cores(text, maxLen, overlap)
            else LeavesOfAll(Split(text, sep), separators, maxLen, overlap)
    decreases |separators|
  {
    if separators != [] {
      var first, sep := separators[0], FindSeparator(text, separators);
      SplitsOrLacks(text, first);
      if |Split(text, first)| <= 1 {
        LeavesSkip(text, separators, maxLen, overlap);
        LeavesFound(text, separators[1..], maxLen, overlap);
      }
      if sep != "" {
        PartsLack(text, sep, first);
        LeavesSkipAll(Split(text, sep), separators, maxLen, overlap);
      }
    }
  }

  lemma PartsLack(text: string, sep: string, t: string)
    requires sep != "" && t != "" && (t == sep || IndexOf(text, t) == -1)
    ensures AllLack(Split(text, sep), t)
  {
    forall k | 0 <= k < |Split(text, sep)| ensures IndexOf(Split(text, sep)[k], t) == -1 {
      PartLacks(text, sep, t, k);
    }
  }

  /** The paragraph break, the line break, the ideographic full stop, the fullwidth comma, the blank: in this order. */
  const NAMED: seq<string> := ["\n\n", "\n", "\U{3002}", "\U{FF0C}", " "]

  lemma {:induction false} FindsNamed(text: string, separators: seq<string>)
    requires "" !in separators
    ensures FindSeparator(text, separators + [""]) == FindSeparator(text, separators)
  {
    if separators != [] {
      assert (separators + [""])[1..] == separators[1..] + [""];
      FindsNamed(text, separators[1..]);
    }
  }

  lemma LeavesStep(text: string, maxLen: int, overlap: int)
    requires Sane(maxLen, overlap) && |text| > maxLen
    ensures Leaves(text, NAMED, maxLen, overlap) ==
            var sep := FindSeparator(text, SEPARATORS);
            if sep == "" then Cores(text, maxLen, overlap)
            else LeavesOfAll(Split(text, sep), NAMED, maxLen, overlap)
  {
    assert SEPARATORS == NAMED + [""];
    FindsNamed(text, NAMED);
    LeavesFound(text, NAMED, maxLen, overlap);
  }

  // ---- Nothing is lost

  /**
   * A chunk of the result: the separators dropped before it, the runes it repeats, and the runes it alone carries.
   * What it repeats is so many copies of the end of the chunk before.
   */
  datatype Piece = Piece(gap: string, copies: nat, dup: string, core: string)

  datatype Layout = Layout(pieces: seq<Piece>, tail: string)

  function ChunkOf(p: Piece): string {
    p.dup + p.core
  }

  function ChunksOf(pieces: seq<Piece>): seq<string> {
    seq(|pieces|, i requires 0 <= i < |pieces| => ChunkOf(pieces[i]))
  }

  /** The stretch of the text a piece stands for. */
  function Own(p: Piece): string {
    p.gap + p.core
  }

  function SourceOf(pieces: seq<Piece>): string {
    if pieces == [] then "" else Own(pieces[0]) + SourceOf(pieces[1..])
  }

  function CoresOf(pieces: seq<Piece>): seq<string> {
    seq(|pieces|, i requires 0 <= i < |pieces| => pieces[i].core)
  }

  predicate PiecesFine(pieces: seq<Piece>) {
    forall i :: 0 <= i < |pieces| ==> OnlySeparators(pieces[i].gap) && pieces[i].core != ""
  }

  function Tail(s: string, n: int): string
    requires 0 <= n <= |s|
  {
    s[|s|-n..]
  }

  function Copies(s: string, k: nat): string {
    if k == 0 then "" else s + Copies(s, k - 1)
  }

  /** What p repeats is nothing, or copies of the last runes of the chunk before. */
  predicate Repeats(prev: string, p: Piece, overlap: int) {
    if p.copies == 0 then p.dup == "" else 0 <= overlap <= |prev| && p.dup == Copies(Tail(prev, overlap), p.copies)
  }

  /** No piece repeats anything else, and none more than `most` copies; the first repeats nothing. */
  predicate AllRepeat(pieces: seq<Piece>, overlap: int, most: nat) {
    && (forall i :: 0 <= i < |pieces| ==> pieces[i].copies <= most)
    && (forall i :: 0 < i < |pieces| ==> Repeats(ChunkOf(pieces[i-1]), pieces[i], overlap))
    && (pieces != [] ==> pieces[0].copies == 0 && pieces[0].dup == "")
  }

  /**
   * The layout takes `text` apart into gaps of separators and non-empty cores, in order and leaving nothing out; the
   * chunks are those cores, each behind the runes it repeats.
   */
  predicate Explains(l: Layout, chunks: seq<string>, text: string, overlap: int, most: nat) {
    && SourceOf(l.pieces) + l.tail == text
    && ChunksOf(l.pieces) == chunks
    && PiecesFine(l.pieces)
    && OnlySeparators(l.tail)
    && AllRepeat(l.pieces, overlap, most)
  }

  lemma {:induction false} SourceOfConcat(a: seq<Piece>, b: seq<Piece>)
    ensures SourceOf(a + b) == SourceOf(a) + SourceOf(b)
  {
    if a == [] {
      assert a + b == b;
    } else {
      SourceOfConcat(a[1..], b);
      assert (a + b)[0] == a[0] && (a + b)[1..] == a[1..] + b;
      Associative(Own(a[0]), SourceOf(a[1..]), SourceOf(b));
    }
  }

  lemma ChunksOfConcat(a: seq<Piece>, b: seq<Piece>)
    ensures ChunksOf(a + b) == ChunksOf(a) + ChunksOf(b)
    ensures CoresOf(a + b) == CoresOf(a) + CoresOf(b)
  {
  }

  /** A wider gap before the first piece. */
  function Widened(gap: string, pieces: seq<Piece>): seq<Piece>
    requires pieces != []
  {
    [pieces[0].(gap := gap + pieces[0].gap)] + pieces[1..]
  }

  lemma WidenedSource(gap: string, pieces: seq<Piece>)
    requires pieces != []
    ensures SourceOf(Widened(gap, pieces)) == gap + SourceOf(pieces)
    ensures ChunksOf(Widened(gap, pieces)) == ChunksOf(pieces)
    ensures CoresOf(Widened(gap, pieces)) == CoresOf(pieces)
  {
    var p := pieces[0];
    assert Widened(gap, pieces)[1..] == pieces[1..];
    Associative(gap, p.gap, p.core);
    Associative(gap, Own(p), SourceOf(pieces[1..]));
  }

  lemma WidenedFine(gap: string, pieces: seq<Piece>)
    requires pieces != [] && PiecesFine(pieces) && OnlySeparators(gap)
    ensures PiecesFine(Widened(gap, pieces))
  {
  }

  lemma RepeatConcat(a: seq<Piece>, b: seq<Piece>, overlap: int, most: nat)
    requires AllRepeat(a, overlap, most) && AllRepeat(b, overlap, most)
    ensures AllRepeat(a + b, overlap, most)
  {
    forall i | 0 < i < |a + b| ensures Repeats(ChunkOf((a + b)[i-1]), (a + b)[i], overlap) {
      if i > |a| { assert (a + b)[i] == b[i-|a|] && (a + b)[i-1] == b[i-1-|a|]; }
    }
  }

  lemma WidenedRepeat(gap: string, pieces: seq<Piece>, overlap: int, most: nat)
    requires pieces != [] && AllRepeat(pieces, overlap, most)
    ensures AllRepeat(Widened(gap, pieces), overlap, most)
  {
    var w := Widened(gap, pieces);
    forall i | 0 < i < |w| ensures Repeats(ChunkOf(w[i-1]), w[i], overlap) {
      assert ChunkOf(w[i-1]) == ChunkOf(pieces[i-1]) && w[i] == pieces[i];
    }
  }

  lemma Regroup(a: string, b: string, c: string, d: string, e: string)
    ensures a + (b + c + d) + e == (a + b) + c + (d + e)
  {
    assert a + (b + c + d) == a + b + c + d;
    assert (a + b + c + d) + e == (a + b + c) + (d + e);
  }

  /** Two stretches of text with a separator between them. */
  lemma Together(l1: Layout, c1: seq<string>, t1: string, sep: string, l2: Layout, c2: seq<string>, t2: string,
                 overlap: int, most: nat)
    returns (l: Layout)
    requires Explains(l1, c1, t1, overlap, most) && Explains(l2, c2, t2, overlap, most) && OnlySeparators(sep)
    ensures Explains(l, c1 + c2, t1 + sep + t2, overlap, most)
    ensures CoresOf(l.pieces) == CoresOf(l1.pieces) + CoresOf(l2.pieces)
  {
    hide AllRepeat;
    if l2.pieces == [] {
      l := Layout(l1.pieces, l1.tail + sep + l2.tail);
    } else {
      var moved := Widened(l1.tail + sep, l2.pieces);
      l := Layout(l1.pieces + moved, l2.tail);
      WidenedSource(l1.tail + sep, l2.pieces);
      SourceOfConcat(l1.pieces, moved);
      ChunksOfConcat(l1.pieces, moved);
      WidenedFine(l1.tail + sep, l2.pieces);
      WidenedRepeat(l1.tail + sep, l2.pieces, overlap, most);
      RepeatConcat(l1.pieces, moved, overlap, most);
      Regroup(SourceOf(l1.pieces), l1.tail, sep, SourceOf(l2.pieces), l2.tail);
    }
  }

  lemma {:induction false} SameSource(a: seq<Piece>, b: seq<Piece>)
    requires |a| == |b| && forall i :: 0 <= i < |a| ==> a[i].gap == b[i].gap && a[i].core == b[i].core
    ensures SourceOf(a) == SourceOf(b)
  {
    if a != [] { SameSource(a[1..], b[1..]); }
  }

  /** Overlaps only add to what the chunks repeat: one copy more for each of them. */
  lemma OverlapsExplained(l: Layout, chunks: seq<string>, text: string, maxLen: int, overlap: int, most: nat)
    returns (o: Layout)
    requires Sane(maxLen, overlap) && Explains(l, chunks, text, overlap, most)
    ensures Explains(o, AddOverlap(chunks, maxLen, overlap), text, overlap, most + 1)
    ensures CoresOf(o.pieces) == CoresOf(l.pieces)
  {
    o := Layout(ExtendedAll(l.pieces, maxLen, overlap), l.tail);
    SameSource(o.pieces, l.pieces);
    forall i | 0 <= i < |chunks|
      ensures ChunkOf(o.pieces[i]) == WithOverlap(chunks, i, maxLen, overlap)
    {
      ExtendedChunk(l.pieces, chunks, i, maxLen, overlap);
    }
    assert ChunksOf(o.pieces) == AddOverlap(chunks, maxLen, overlap);
    ExtendedRepeat(l.pieces, maxLen, overlap, most);
  }

  predicate GetsOverlap(pieces: seq<Piece>, i: nat, maxLen: int, overlap: int)
    requires i < |pieces|
  {
    i > 0 && |ChunkOf(pieces[i])| < maxLen && |ChunkOf(pieces[i-1])| > overlap
  }

  /** The i-th piece, which may repeat the end of the chunk before once more. */
  function Extended(pieces: seq<Piece>, i: nat, maxLen: int, overlap: int): Piece
    requires Sane(maxLen, overlap) && i < |pieces|
  {
    var p := pieces[i];
    if GetsOverlap(pieces, i, maxLen, overlap)
    then p.(dup := Tail(ChunkOf(pieces[i-1]), overlap) + p.dup, copies := p.copies + 1)
    else p
  }

  function ExtendedAll(pieces: seq<Piece>, maxLen: int, overlap: int): seq<Piece>
    requires Sane(maxLen, overlap)
  {
    seq(|pieces|, i requires 0 <= i < |pieces| => Extended(pieces, i, maxLen, overlap))
  }

  lemma ExtendedChunk(pieces: seq<Piece>, chunks: seq<string>, i: nat, maxLen: int, overlap: int)
    requires Sane(maxLen, overlap) && chunks == ChunksOf(pieces) && i < |pieces|
    ensures ChunkOf(Extended(pieces, i, maxLen, overlap)) == WithOverlap(chunks, i, maxLen, overlap)
  {
    if GetsOverlap(pieces, i, maxLen, overlap) {
      Associative(Tail(ChunkOf(pieces[i-1]), overlap), pieces[i].dup, pieces[i].core);
    }
  }

  lemma ExtendedRepeat(pieces: seq<Piece>, maxLen: int, overlap: int, most: nat)
    requires Sane(maxLen, overlap) && AllRepeat(pieces, overlap, most)
    ensures AllRepeat(ExtendedAll(pieces, maxLen, overlap), overlap, most + 1)
  {
    var out := ExtendedAll(pieces, maxLen, overlap);
    forall i | 0 < i < |out| ensures Repeats(ChunkOf(out[i-1]), out[i], overlap) {
      assert Repeats(ChunkOf(pieces[i-1]), pieces[i], overlap);
      if overlap <= |ChunkOf(pieces[i-1])| { ExtendedKeepsTail(pieces, i - 1, maxLen, overlap); }
    }
  }

  /** A chunk that gets an overlap in front ends as before. */
  lemma ExtendedKeepsTail(pieces: seq<Piece>, i: nat, maxLen: int, overlap: int)
    requires Sane(maxLen, overlap) && i < |pieces| && overlap <= |ChunkOf(pieces[i])|
    ensures var longer := ChunkOf(Extended(pieces, i, maxLen, overlap));
            overlap <= |longer| && Tail(longer, overlap) == Tail(ChunkOf(pieces[i]), overlap)
  {
    if GetsOverlap(pieces, i, maxLen, overlap) {
      Associative(Tail(ChunkOf(pieces[i-1]), overlap), pieces[i].dup, pieces[i].core);
    }
  }

  /** The first n runes of the first core seen as a repetition. */
  function Repeating(pieces: seq<Piece>, n: nat): seq<Piece>
    requires pieces != [] && n <= |pieces[0].core|
  {
    [Piece("", if n > 0 then 1 else 0, pieces[0].core[..n], pieces[0].core[n..])] + pieces[1..]
  }

  lemma RepeatingSource(pieces: seq<Piece>, n: nat)
    requires pieces != [] && n <= |pieces[0].core| && pieces[0].gap == "" && pieces[0].dup == ""
    ensures SourceOf(Repeating(pieces, n)) == SourceOf(pieces)[n..]
    ensures ChunksOf(Repeating(pieces, n)) == ChunksOf(pieces)
  {
    var p, q := pieces[0], Repeating(pieces, n)[0];
    assert Repeating(pieces, n)[1..] == pieces[1..];
    assert Own(p) == p.core && Own(q) == p.core[n..];
    DropOfConcat(p.core, SourceOf(pieces[1..]), n);
    assert ChunkOf(q) == p.core == ChunkOf(p);
  }

  lemma DropOfConcat(a: string, b: string, n: nat)
    requires n <= |a|
    ensures (a + b)[n..] == a[n..] + b
  {
  }

  lemma InFront(core: string, pieces: seq<Piece>)
    ensures SourceOf([Piece("", 0, "", core)] + pieces) == core + SourceOf(pieces)
    ensures ChunksOf([Piece("", 0, "", core)] + pieces) == [core] + ChunksOf(pieces)
  {
    var p := Piece("", 0, "", core);
    assert ([p] + pieces)[1..] == pieces;
    assert Own(p) == core && ChunkOf(p) == core;
  }

  /** The next cut starts with the last n runes of this one. */
  predicate StartsWithEnd(cut: string, core: string, n: int, overlap: int) {
    n == 0 || (0 < n == overlap && n <= |cut| && n <= |core| && core[..n] == Tail(cut, n))
  }

  lemma PrecededRepeat(cut: string, pieces: seq<Piece>, n: nat, overlap: int)
    requires pieces != [] && n <= |pieces[0].core| && AllRepeat(pieces, overlap, 1)
    requires StartsWithEnd(cut, pieces[0].core, n, overlap)
    ensures AllRepeat([Piece("", 0, "", cut)] + Repeating(pieces, n), overlap, 1)
  {
    var all := [Piece("", 0, "", cut)] + Repeating(pieces, n);
    forall i | 0 < i < |all| ensures Repeats(ChunkOf(all[i-1]), all[i], overlap) {
      if i == 1 {
        assert ChunkOf(all[0]) == cut && Copies(Tail(cut, n), 0) == "";
        assert all[1].dup == pieces[0].core[..n];
        assert n > 0 ==> Copies(Tail(cut, n), 1) == Tail(cut, n);
      } else {
        assert all[i] == pieces[i-1];
        assert ChunkOf(all[i-1]) == ChunkOf(pieces[i-2]);
      }
    }
  }

  /** A cut of which the next one repeats all but the first runes. */
  lemma Preceded(cut: string, rest: Layout, n: nat, chunks: seq<string>, text: string, overlap: int) returns (l: Layout)
    requires cut != "" && Explains(rest, chunks, text, overlap, 1) && rest.tail == ""
    requires rest.pieces != [] && rest.pieces[0].gap == "" && n < |rest.pieces[0].core| && n <= |text|
    requires StartsWithEnd(cut, rest.pieces[0].core, n, overlap)
    ensures Explains(l, [cut] + chunks, cut + text[n..], overlap, 1) && l.tail == ""
    ensures l.pieces != [] && l.pieces[0].gap == "" && l.pieces[0].core == cut
    ensures CoresOf(l.pieces) == [cut, rest.pieces[0].core[n..]] + CoresOf(rest.pieces)[1..]
  {
    var next := Repeating(rest.pieces, n);
    l := Layout([Piece("", 0, "", cut)] + next, "");
    RepeatingSource(rest.pieces, n);
    InFront(cut, next);
    PrecededRepeat(cut, rest.pieces, n, overlap);
    assert SourceOf(rest.pieces) == text;
    assert SourceOf(l.pieces) + "" == SourceOf(l.pieces);
  }

  lemma Rejoined(s: string, i: nat, j: nat)
    requires i <= j <= |s|
    ensures s[..j] + s[i..][j-i..] == s
  {
    assert s[i..][j-i..] == s[j..];
  }

  lemma {:induction false} CutsExplained(runes: string, maxLen: int, overlap: int) returns (l: Layout)
    requires Sane(maxLen, overlap)
    ensures Explains(l, SplitBySize(runes, maxLen, overlap), runes, overlap, 1) && l.tail == ""
    ensures l.pieces != [] ==> l.pieces[0].gap == "" && l.pieces[0].core == runes[..Min(maxLen, |runes|)]
    ensures runes != [] ==> l.pieces != []
    ensures CoresOf(l.pieces) == Cores(runes, maxLen, overlap)
    decreases |runes|
  {
    hide AllRepeat;
    if runes == [] {
      l := Layout([], "");
      NoPieces(overlap);
    } else if |runes| <= maxLen {
      l := Whole(runes, overlap, 1);
    } else {
      var step := StepOf(maxLen, overlap);
      var rest := CutsExplained(runes[step..], maxLen, overlap);
      CutsMeet(runes, step, maxLen, overlap);
      l := Preceded(runes[..maxLen], rest, maxLen - step, SplitBySize(runes[step..], maxLen, overlap), runes[step..],
                    overlap);
      Rejoined(runes, step, maxLen);
      CoresMeet(runes, maxLen, overlap);
    }
  }

  lemma CoresMeet(runes: string, maxLen: int, overlap: int)
    requires Sane(maxLen, overlap) && |runes| > maxLen
    ensures var step := StepOf(maxLen, overlap);
            var next := Cores(runes[step..], maxLen, overlap);
            && next != []
            && next[0] == runes[step..][..Min(maxLen, |runes| - step)]
            && Cores(runes, maxLen, overlap) == [runes[..maxLen], next[0][maxLen-step..]] + next[1..]
  {
    hide Stretches;
    var step := StepOf(maxLen, overlap);
    var rest, beyond := runes[step..], runes[maxLen..];
    StretchesBegin(beyond, step);
    if |rest| > maxLen {
      DropThenTake(runes, step, maxLen);
      Associative([runes[..maxLen]], [beyond[..step]], Stretches(rest[maxLen..], step));
    } else {
      assert rest[maxLen-step..] == beyond && rest[..|rest|] == rest;
    }
  }

  lemma StretchesBegin(s: string, n: int)
    requires n > 0 && s != []
    ensures Stretches(s, n) == if |s| <= n then [s] else [s[..n]] + Stretches(s[n..], n)
  {
  }

  lemma DropThenTake(runes: string, step: nat, maxLen: nat)
    requires step <= maxLen && step + maxLen < |runes|
    ensures var rest, beyond := runes[step..], runes[maxLen..];
            beyond[..step] == rest[..maxLen][maxLen-step..] && beyond[step..] == rest[maxLen..]
  {
  }

  lemma NoPieces(overlap: int)
    ensures AllRepeat([], overlap, 1)
  {
  }

  lemma CutsMeet(runes: string, step: nat, maxLen: int, overlap: int)
    requires Sane(maxLen, overlap) && |runes| > maxLen && step == StepOf(maxLen, overlap)
    ensures StartsWithEnd(runes[..maxLen], runes[step..][..Min(maxLen, |runes| - step)], maxLen - step, overlap)
  {
    if step < maxLen {
      assert runes[step..][..Min(maxLen, |runes| - step)][..maxLen-step] == runes[step..maxLen];
      assert Tail(runes[..maxLen], maxLen - step) == runes[step..maxLen];
    }
  }

  /** A text that is one chunk. */
  lemma Whole(text: string, overlap: int, most: nat) returns (l: Layout)
    requires text != ""
    ensures Explains(l, [text], text, overlap, most) && l.pieces == [Piece("", 0, "", text)] && l.tail == ""
  {
    l := Layout([Piece("", 0, "", text)], "");
    assert ChunkOf(Piece("", 0, "", text)) == text;
  }

  // -- How often the overlap can be repeated

  /** The number of separators left to try in a text, the useful one included. */
  function Levels(text: string, separators: seq<string>): (n: nat)
    ensures 1 <= n <= Max(1, |separators|)
  {
    if separators == [] || separators[0] == "" then 1
    else if |Split(text, separators[0])| > 1 then |separators|
    else Levels(text, separators[1..])
  }

  lemma {:induction false} PartLacks(s: string, sep: string, t: string, k: nat)
    requires sep != "" && t != "" && k < |Split(s, sep)| && (t == sep || IndexOf(s, t) == -1)
    ensures IndexOf(Split(s, sep)[k], t) == -1
    decreases |s|
  {
    hide IndexOf;
    var i := IndexOf(s, sep);
    if i != -1 {
      if k == 0 {
        LacksBefore(s, i, t);
        if t == sep { IndexOfIsFirstIn(s, sep, i); }
      } else {
        var rest := s[i+|sep|..];
        if t != sep { LacksAfter(s, i + |sep|, t); }
        assert Split(s, sep)[k] == Split(rest, sep)[k-1];
        PartLacks(rest, sep, t, k - 1);
      }
    }
  }

  lemma LacksBefore(s: string, i: nat, t: string)
    requires t != "" && i <= |s|
    ensures IndexOf(s, t) == -1 ==> IndexOf(s[..i], t) == -1
  {
    var j := IndexOf(s[..i], t);
    if j != -1 {
      assert s[..i][j..j+|t|] == s[j..j+|t|];
      IndexOfIsFirst(s, t, j);
    }
  }

  lemma LacksAfter(s: string, i: nat, t: string)
    requires t != "" && i <= |s|
    ensures IndexOf(s, t) == -1 ==> IndexOf(s[i..], t) == -1
  {
    var j := IndexOf(s[i..], t);
    if j != -1 {
      assert s[i..][j..j+|t|] == s[i+j..i+j+|t|];
      IndexOfIsFirst(s, t, i + j);
    }
  }

  lemma IndexOfIsFirstIn(s: string, t: string, i: nat)
    requires t != "" && i == IndexOf(s, t)
    ensures i <= |s| && IndexOf(s[..i], t) == -1
  {
    var j := IndexOf(s[..i], t);
    if j != -1 {
      assert s[..i][j..j+|t|] == s[j..j+|t|];
      IndexOfIsFirst(s, t, j);
    }
  }

  /** A part has only finer separators left than the text it was split from. */
  lemma {:induction false} PartHasFewerLevels(text: string, separators: seq<string>, k: nat)
    requires separators != [] && separators[|separators|-1] == ""
    requires var sep := FindSeparator(text, separators); sep != "" && k < |Split(text, sep)|
    ensures Levels(Split(text, FindSeparator(text, separators))[k], separators) < Levels(text, separators)
    decreases |separators|
  {
    var first := separators[0];
    var sep := FindSeparator(text, separators);
    if |Split(text, first)| > 1 {
      PartLacks(text, first, first, k);
    } else {
      PartLacks(text, sep, first, k);
      PartHasFewerLevels(text, separators[1..], k);
    }
  }

  // -- The theorem

  lemma {:induction false} SplitExplained(text: string, maxLen: int, overlap: int, most: nat) returns (l: Layout)
    requires Sane(maxLen, overlap) && Levels(text, SEPARATORS) <= most
    ensures Explains(l, RecursiveSplit(text, maxLen, overlap), text, overlap, most)
    ensures CoresOf(l.pieces) == Leaves(text, NAMED, maxLen, overlap)
    decreases |text|
  {
    if |text| <= maxLen {
      if text == [] {
        l := Layout([], "");
      } else {
        l := Whole(text, overlap, most);
      }
    } else {
      var sep := FindSeparator(text, SEPARATORS);
      LeavesStep(text, maxLen, overlap);
      if sep == "" {
        l := CutsExplained(text, maxLen, overlap);
      } else {
        SplitShortens(text, sep);
        var parts := Split(text, sep);
        forall k | 0 <= k < |parts| ensures Levels(parts[k], SEPARATORS) <= most - 1 {
          PartHasFewerLevels(text, SEPARATORS, k);
        }
        JoinSplit(text, sep);
        var inner := PartsExplained(parts, sep, |text|, maxLen, overlap, most - 1);
        l := OverlapsExplained(inner, SplitParts(parts, |text|, maxLen, overlap), text, maxLen, overlap, most - 1);
      }
    }
  }

  predicate AllLevels(parts: seq<string>, most: int) {
    forall k :: 0 <= k < |parts| ==> Levels(parts[k], SEPARATORS) <= most
  }

  lemma {:induction false} PartsExplained(parts: seq<string>, sep: string, bound: nat, maxLen: int, overlap: int,
                                          most: nat)
    returns (l: Layout)
    requires Sane(maxLen, overlap) && Shorter(parts, bound) && parts != [] && sep in SEPARATORS
    requires AllLevels(parts, most)
    ensures Explains(l, SplitParts(parts, bound, maxLen, overlap), Join(parts, sep), overlap, most)
    ensures CoresOf(l.pieces) == LeavesOfAll(parts, NAMED, maxLen, overlap)
    decreases bound, |parts|
  {
    hide Explains, RecursiveSplit, Levels, Leaves;
    var one := SplitExplained(parts[0], maxLen, overlap, most);
    if |parts| == 1 {
      assert SplitParts(parts[1..], bound, maxLen, overlap) == [];
      assert SplitParts(parts, bound, maxLen, overlap) == RecursiveSplit(parts[0], maxLen, overlap);
      l := one;
    } else {
      var others := PartsExplained(parts[1..], sep, bound, maxLen, overlap, most);
      l := Together(one, RecursiveSplit(parts[0], maxLen, overlap), parts[0], sep,
                    others, SplitParts(parts[1..], bound, maxLen, overlap), Join(parts[1..], sep), overlap, most);
    }
  }

  /**
   * Whatever the text, its chunks take it apart completely: the runes they carry alone are exactly the pieces that the
   * five separators, taken in their order, leave of it; only separator runes are left out; and each piece stands
   * behind nothing but copies of the last `overlap` runes of the chunk before, at most one for the cutting by size
   * and one for each of the five separators.
   */
  lemma NothingIsLost(text: string, maxLen: int, overlap: int)
    requires Sane(maxLen, overlap)
    ensures exists l ::
      && Explains(l, RecursiveSplit(text, maxLen, overlap), text, overlap, 6)
      && CoresOf(l.pieces) == Leaves(text, ["\n\n", "\n", "\U{3002}", "\U{FF0C}", " "], maxLen, overlap)
  {
    var l := SplitExplained(text, maxLen, overlap, 6);
  }

  /** The chunk at i ends with the piece and has nothing before it but the last runes of the chunk before. */
  predicate EndsAlone(chunks: seq<string>, i: nat, piece: string, maxLen: int, overlap: int) {
    && i < |chunks|
    && (|| chunks[i] == piece
        || (i > 0 && |piece| < maxLen && 0 <= overlap <= |chunks[i-1]| &&
            chunks[i] == Tail(chunks[i-1], overlap) + piece))
  }

  predicate Occurs(text: string, sep: string) {
    exists i :: 0 <= i <= |text| && At(text, sep, i)
  }

  /** The k-th separator occurs in the text and none of those before it does. */
  predicate FirstToOccur(text: string, k: nat) {
    && k < |NAMED|
    && Occurs(text, NAMED[k])
    && (forall j :: 0 <= j < k ==> !Occurs(text, NAMED[j]))
  }

  lemma FindsFirst(text: string, separators: seq<string>, k: nat)
    requires "" !in separators && k < |separators| && Occurs(text, separators[k])
    requires forall j :: 0 <= j < k ==> !Occurs(text, separators[j])
    ensures FindSeparator(text, separators) == separators[k]
  {
    SplitsOrLacks(text, separators[0]);
    if k == 0 {
      var i :| 0 <= i <= |text| && At(text, separators[0], i);
      IndexOfIsFirst(text, separators[0], i);
    } else {
      assert !Occurs(text, separators[0]);
      assert !At(text, separators[0], IndexOf(text, separators[0]));
      forall j | 0 <= j < k - 1 ensures !Occurs(text, separators[1..][j]) {
        assert separators[1..][j] == separators[j+1];
      }
      FindsFirst(text, separators[1..], k - 1);
    }
  }

  /** The chunks of the k-th part are among those of all parts. */
  lemma {:induction false} PartInside(parts: seq<string>, bound: nat, k: nat, maxLen: int, overlap: int)
    returns (before: seq<string>, after: seq<string>)
    requires Sane(maxLen, overlap) && Shorter(parts, bound) && k < |parts|
    ensures SplitParts(parts, bound, maxLen, overlap) ==
            before + RecursiveSplit(parts[k], maxLen, overlap) + after
  {
    hide RecursiveSplit;
    if k == 0 {
      before, after := [], SplitParts(parts[1..], bound, maxLen, overlap);
      assert [] + RecursiveSplit(parts[0], maxLen, overlap) == RecursiveSplit(parts[0], maxLen, overlap);
    } else {
      before, after := PartInside(parts[1..], bound, k - 1, maxLen, overlap);
      var first, mine := RecursiveSplit(parts[0], maxLen, overlap), RecursiveSplit(parts[k], maxLen, overlap);
      Associative(first, before + mine, after);
      Associative(first, before, mine);
      before := first + before;
    }
  }

  /**
   * A text that is too long is divided at the first separator that occurs in it, and a part between two occurrences
   * that fits is never cut: it is a chunk, whole and with nothing before it but the overlap.
   */
  lemma FittingPartsStayWhole(text: string, k: nat, part: string, maxLen: int, overlap: int)
    requires Sane(maxLen, overlap) && |text| > maxLen && FirstToOccur(text, k)
    requires part in Split(text, NAMED[k]) && 0 < |part| <= maxLen
    ensures exists i :: EndsAlone(RecursiveSplit(text, maxLen, overlap), i, part, maxLen, overlap)
  {
    hide RecursiveSplit, Split, FindSeparator, SplitParts, EndsAlone, AddOverlap, Occurs;
    var parts := Split(text, NAMED[k]);
    DividedAtFirst(text, k, maxLen, overlap);
    var p :| 0 <= p < |parts| && parts[p] == part;
    var before, after := PartInside(parts, |text|, p, maxLen, overlap);
    ShortSplit(part, maxLen, overlap);
    OverlapEndsAlone(before + [part] + after, |before|, maxLen, overlap);
  }

  lemma DividedAtFirst(text: string, k: nat, maxLen: int, overlap: int)
    requires Sane(maxLen, overlap) && |text| > maxLen && FirstToOccur(text, k)
    ensures var parts := Split(text, NAMED[k]);
            && Shorter(parts, |text|)
            && RecursiveSplit(text, maxLen, overlap) ==
               AddOverlap(SplitParts(parts, |text|, maxLen, overlap), maxLen, overlap)
  {
    hide Split, SplitParts, AddOverlap;
    FindsFirst(text, NAMED, k);
    FindsNamed(text, NAMED);
    assert SEPARATORS == NAMED + [""];
    SplitShortens(text, NAMED[k]);
  }

  lemma OverlapEndsAlone(chunks: seq<string>, i: nat, maxLen: int, overlap: int)
    requires Sane(maxLen, overlap) && i < |chunks|
    ensures EndsAlone(AddOverlap(chunks, maxLen, overlap), i, chunks[i], maxLen, overlap)
  {
    hide HasSuffix;
    var out, own := AddOverlap(chunks, maxLen, overlap), chunks[i];
    assert out[i] == WithOverlap(chunks, i, maxLen, overlap);
    if i > 0 && |own| < maxLen && |chunks[i-1]| > overlap {
      OverlapKeepsTail(chunks, i - 1, maxLen, overlap);
      assert out[i-1] == WithOverlap(chunks, i - 1, maxLen, overlap);
      hide AddOverlap, WithOverlap;
      assert out[i] == Tail(out[i-1], overlap) + own;
    } else {
      assert out[i] == own;
    }
  }

  lemma OverlapKeepsTail(chunks: seq<string>, i: nat, maxLen: int, overlap: int)
    requires Sane(maxLen, overlap) && i < |chunks| && overlap <= |chunks[i]|
    ensures var longer := WithOverlap(chunks, i, maxLen, overlap);
            overlap <= |longer| && Tail(longer, overlap) == Tail(chunks[i], overlap)
  {
    var own, longer := chunks[i], WithOverlap(chunks, i, maxLen, overlap);
    assert HasSuffix(longer, own);
    SuffixTrans(longer, own, Tail(own, overlap));
  }

  // ---- Overlap

  /** The second string starts with the last n runes of the first. */
  predicate Shares(a: string, b: string, n: int) {
    0 <= n <= |a| && n <= |b| && a[|a|-n..] == b[..n]
  }

  predicate Neighbours(a: string, b: string, maxLen: int, overlap: int) {
    Shares(a, b, overlap) || |b| >= maxLen || |a| <= overlap + overlap
  }

  predicate AllNeighbours(chunks: seq<string>, maxLen: int, overlap: int) {
    forall i :: 0 < i < |chunks| ==> Neighbours(chunks[i-1], chunks[i], maxLen, overlap)
  }

  lemma OverlapsShare(chunks: seq<string>, i: nat, maxLen: int, overlap: int)
    requires Sane(maxLen, overlap) && 0 < i < |chunks|
    ensures Neighbours(WithOverlap(chunks, i - 1, maxLen, overlap), WithOverlap(chunks, i, maxLen, overlap),
                       maxLen, overlap)
  {
    var prev, out := chunks[i-1], WithOverlap(chunks, i - 1, maxLen, overlap);
    assert HasSuffix(out, prev);
    if |prev| > overlap {
      SuffixTrans(out, prev, prev[|prev|-overlap..]);
    }
  }

  lemma FirstCutShares(runes: string, maxLen: int, overlap: int)
    requires Sane(maxLen, overlap) && |runes| > maxLen
    ensures var more := SplitBySize(runes[StepOf(maxLen, overlap)..], maxLen, overlap);
            more != [] && Neighbours(runes[..maxLen], more[0], maxLen, overlap)
  {
    var rest := runes[StepOf(maxLen, overlap)..];
    var first := SplitBySize(rest, maxLen, overlap)[0];
    assert first == rest[..Min(maxLen, |rest|)];
    if overlap < maxLen {
      assert first[..overlap] == runes[maxLen-overlap..maxLen];
    }
  }

  lemma {:induction false} CutsShare(runes: string, maxLen: int, overlap: int)
    requires Sane(maxLen, overlap)
    ensures AllNeighbours(SplitBySize(runes, maxLen, overlap), maxLen, overlap)
    decreases |runes|
  {
    if |runes| > maxLen {
      var rest := runes[StepOf(maxLen, overlap)..];
      CutsShare(rest, maxLen, overlap);
      FirstCutShares(runes, maxLen, overlap);
    }
  }

  /**
   * Each chunk starts with the last `overlap` runes of the one before it, unless it is full already or the one before
   * it had too little to give.
   */
  lemma NeighboursShareOverlap(text: string, maxLen: int, overlap: int)
    requires Sane(maxLen, overlap)
    ensures AllNeighbours(RecursiveSplit(text, maxLen, overlap), maxLen, overlap)
  {
    if |text| > maxLen {
      var sep := FindSeparator(text, SEPARATORS);
      if sep == "" {
        CutsShare(text, maxLen, overlap);
      } else {
        SplitShortens(text, sep);
        var inner := SplitParts(Split(text, sep), |text|, maxLen, overlap);
        forall i | 0 < i < |inner| ensures Neighbours(AddOverlap(inner, maxLen, overlap)[i-1],
                                                      AddOverlap(inner, maxLen, overlap)[i], maxLen, overlap) {
          OverlapsShare(inner, i, maxLen, overlap);
        }
      }
    }
  }

  lemma SplitsNowhere(s: string, sep: string, c: char)
    requires c in sep && c !in s
    ensures Split(s, sep) == [s]
  {
  }

  lemma SplitsOnce(a: string, c: char, b: string)
    requires c !in a && c !in b
    ensures Split(a + [c] + b, [c]) == [a, b]
  {
    var s := a + [c] + b;
    assert At(s, [c], |a|);
    IndexOfIsFirst(s, [c], |a|);
    var i := IndexOf(s, [c]);
    assert s[i..i+1][0] == s[i];
    assert s[i+1..] == b && s[..i] == a;
    SplitsNowhere(b, [c], c);
  }

  /** Separators whose first rune the text does not hold are passed over. */
  lemma {:induction false} FindsLater(text: string, useless: seq<string>, separators: seq<string>)
    requires forall i :: 0 <= i < |useless| ==> useless[i] != "" && useless[i][0] !in text
    ensures FindSeparator(text, useless + separators) == FindSeparator(text, separators)
  {
    if useless == [] {
      assert useless + separators == separators;
    } else {
      SplitsNowhere(text, useless[0], useless[0][0]);
      FindsLater(text, useless[1..], separators);
      assert (useless + separators)[1..] == useless[1..] + separators;
    }
  }

  /** Two short halves of a text that is split in the middle. */
  lemma SplitsInTwo(a: string, c: char, b: string, maxLen: int, overlap: int)
    requires Sane(maxLen, overlap) && |a| + |b| >= maxLen && c !in a && c !in b
    requires FindSeparator(a + [c] + b, SEPARATORS) == [c]
    ensures RecursiveSplit(a + [c] + b, maxLen, overlap) ==
            AddOverlap(RecursiveSplit(a, maxLen, overlap) + RecursiveSplit(b, maxLen, overlap), maxLen, overlap)
  {
    var text := a + [c] + b;
    SplitsOnce(a, c, b);
    SplitShortens(text, [c]);
    assert [a, b][1..] == [b] && [b][1..] == [];
    assert SplitParts([a, b][1..], |text|, maxLen, overlap) == RecursiveSplit(b, maxLen, overlap);
  }

  predicate Plain(s: string) {
    forall i :: 0 <= i < |s| ==> !IsSeparatorRune(s[i])
  }

  lemma Lacks(y: string, z: string, c: char)
    requires Plain(y) && Plain(z) && IsSeparatorRune(c) && c != ' '
    ensures c !in y + [' '] + z
  {
  }

  /** The separators tried before the blank. */
  const COARSER: seq<string> := SEPARATORS[..4]

  lemma CoarserRunes(i: nat)
    requires i < |COARSER|
    ensures COARSER[i] != "" && IsSeparatorRune(COARSER[i][0]) && COARSER[i][0] != ' '
  {
  }

  /** Two plain words are cut at the blank between them. */
  lemma FindsBlank(y: string, z: string)
    requires Plain(y) && Plain(z)
    ensures FindSeparator(y + [' '] + z, SEPARATORS) == [' ']
  {
    var words := y + [' '] + z;
    forall i | 0 <= i < |COARSER| ensures COARSER[i] != "" && COARSER[i][0] !in words {
      CoarserRunes(i);
      Lacks(y, z, COARSER[i][0]);
    }
    FindsLater(words, COARSER, SEPARATORS[4..]);
    SplitsOnce(y, ' ', z);
    FindsHere(words, SEPARATORS[4..]);
    assert COARSER + SEPARATORS[4..] == SEPARATORS;
  }

  lemma FindsHere(text: string, separators: seq<string>)
    requires separators != [] && separators[0] != "" && |Split(text, separators[0])| > 1
    ensures FindSeparator(text, separators) == separators[0]
  {
  }

  lemma FindsBreak(x: string, words: string)
    requires Plain(x) && '\n' !in words
    ensures FindSeparator(x + ['\n'] + words, SEPARATORS) == ['\n']
  {
    var lines := x + ['\n'] + words;
    SplitsOnce(x, '\n', words);
    NoDoubleBreak(lines, IndexOf(lines, SEPARATORS[0]));
    assert FindSeparator(lines, SEPARATORS) == FindSeparator(lines, SEPARATORS[1..]);
  }

  lemma ShortSplit(s: string, maxLen: int, overlap: int)
    requires Sane(maxLen, overlap) && 0 < |s| <= maxLen
    ensures RecursiveSplit(s, maxLen, overlap) == [s]
  {
  }

  lemma OverlapOfTwo(y: string, z: string, maxLen: int, overlap: int)
    requires Sane(maxLen, overlap) && overlap < |y| && |z| < maxLen
    ensures AddOverlap([y] + [z], maxLen, overlap) == [y, Tail(y, overlap) + z]
  {
  }

  lemma OverlapOfThree(x: string, y: string, w: string, maxLen: int, overlap: int)
    requires Sane(maxLen, overlap) && overlap < |x| && overlap < |y| < maxLen && |w| < maxLen
    ensures AddOverlap([x] + [y, w], maxLen, overlap) == [x, Tail(x, overlap) + y, Tail(y, overlap) + w]
  {
  }

  lemma WordsSplit(y: string, z: string, maxLen: int, overlap: int)
    requires Sane(maxLen, overlap) && Plain(y) && Plain(z)
    requires overlap < |y| <= maxLen && 0 < |z| < maxLen && |y| + |z| >= maxLen
    ensures RecursiveSplit(y + [' '] + z, maxLen, overlap) == [y, Tail(y, overlap) + z]
  {
    FindsBlank(y, z);
    SplitsInTwo(y, ' ', z, maxLen, overlap);
    ShortSplit(y, maxLen, overlap);
    ShortSplit(z, maxLen, overlap);
    OverlapOfTwo(y, z, maxLen, overlap);
  }

  lemma NoDoubleBreak(s: string, i: int)
    requires forall k :: 0 <= k < |s| - 1 ==> s[k] != '\n' || s[k+1] != '\n'
    ensures !At(s, "\n\n", i)
  {
    if 0 <= i <= |s| - 2 {
      assert s[i..i+2][0] == s[i] && s[i..i+2][1] == s[i+1];
    }
  }

  /**
   * The overlap is added at every level of the recursion, so there can be more copies than one: a text of two lines
   * whose second is cut at a blank has a last chunk that starts with two copies of the same runes.
   */
  lemma NestedSplitsRepeatOverlap(x: string, y: string, z: string, maxLen: int, overlap: int)
    requires Sane(maxLen, overlap) && Plain(x) && Plain(y) && Plain(z)
    requires overlap < |x| <= maxLen && overlap < |y| < maxLen && 0 < |z| && overlap + |z| < maxLen <= |y| + |z|
    ensures RecursiveSplit(x + ['\n'] + (y + [' '] + z), maxLen, overlap) ==
            [x, Tail(x, overlap) + y, Tail(y, overlap) + (Tail(y, overlap) + z)]
  {
    hide RecursiveSplit, Split, FindSeparator, AddOverlap;
    var words := y + [' '] + z;
    FindsBreak(x, words);
    SplitsInTwo(x, '\n', words, maxLen, overlap);
    ShortSplit(x, maxLen, overlap);
    WordsSplit(y, z, maxLen, overlap);
    OverlapOfThree(x, y, Tail(y, overlap) + z, maxLen, overlap);
  }
}
