/** The conversation memory compressor (internal/agent/memory/compressor.go).

    Token counts are estimates: four ASCII runes or two others make a token, each rounded up. Cutting a text down to
    m tokens appends a marker that itself counts five, so cutting does not always shorten: a text of t >= 2 tokens
    cut to half becomes exactly t / 2 + 4 tokens. This decides when trimming ends. */
module Compressor {
  import opened Wrappers
  import opened Text

  predicate IsAscii(c: char) {
    c as int < 128
  }

  function Ascii(t: string): nat {
    if t == [] then 0 else Ascii(t[..|t|-1]) + (if IsAscii(t[|t|-1]) then 1 else 0)
  }

  function Tokens(t: string): nat {
    (Ascii(t) + 3) / 4 + (NonAscii(t) + 1) / 2
  }

  function NonAscii(t: string): nat {
    if t == [] then 0 else NonAscii(t[..|t|-1]) + (if IsAscii(t[|t|-1]) then 0 else 1)
  }

  /** The marker appended to a cut text: ten runes, none of them ASCII. */
  const MARKER: string := "\U{2026}\U{FF08}\U{5185}\U{5BB9}\U{8FC7}\U{957F}\U{5DF2}\U{622A}\U{65AD}\U{FF09}"

  lemma {:induction false} AsciiOrNot(t: string)
    ensures Ascii(t) + NonAscii(t) == |t|
  {
    if t != [] { AsciiOrNot(t[..|t|-1]); }
  }

  lemma {:induction false} CountsAdd(a: string, b: string)
    ensures Ascii(a + b) == Ascii(a) + Ascii(b)
    ensures NonAscii(a + b) == NonAscii(a) + NonAscii(b)
  {
    if b == [] {
      assert a + b == a;
    } else {
      CountsAdd(a, b[..|b|-1]);
      assert (a + b)[..|a+b|-1] == a + b[..|b|-1];
    }
  }

  lemma {:induction false} AllNonAscii(t: string)
    requires forall i :: 0 <= i < |t| ==> !IsAscii(t[i])
    ensures Ascii(t) == 0 && NonAscii(t) == |t|
  {
    if t != [] { AllNonAscii(t[..|t|-1]); }
  }

  lemma {:induction false} AllAscii(t: string)
    requires forall i :: 0 <= i < |t| ==> IsAscii(t[i])
    ensures NonAscii(t) == 0
  {
    if t != [] { AllAscii(t[..|t|-1]); }
  }

  lemma MarkerCountsFive(head: string)
    ensures Tokens(head + MARKER) == Tokens(head) + 5
  {
    AllNonAscii(MARKER);
    CountsAdd(head, MARKER);
  }

  /** Four ASCII runes make a token, two others do, a rest counts as one, and the two kinds are counted apart. */
  lemma WhatTokensCount(ascii: string, other: string)
    requires forall i :: 0 <= i < |ascii| ==> IsAscii(ascii[i])
    requires forall i :: 0 <= i < |other| ==> !IsAscii(other[i])
    ensures 4 * (Tokens(ascii) - 1) < |ascii| <= 4 * Tokens(ascii)
    ensures 2 * (Tokens(other) - 1) < |other| <= 2 * Tokens(other)
    ensures Tokens(ascii + other) == Tokens(ascii) + Tokens(other)
  {
    AllAscii(ascii);
    AsciiOrNot(ascii);
    AllNonAscii(other);
    CountsAdd(ascii, other);
  }

  /** One more rune adds no token or one. */
  lemma OneRune(t: string, i: nat)
    requires i < |t|
    ensures Tokens(t[..i]) <= Tokens(t[..i+1]) <= Tokens(t[..i]) + 1
  {
    assert t[..i+1][..i] == t[..i];
  }

  lemma {:induction false} PrefixTokens(t: string, i: nat)
    requires i <= |t|
    ensures Tokens(t[..i]) <= Tokens(t)
    decreases |t| - i
  {
    if i < |t| {
      OneRune(t, i);
      PrefixTokens(t, i + 1);
    } else {
      assert t[..i] == t;
    }
  }

  method CountTokens(text: string) returns (n: nat)
    ensures n == Tokens(text)
  {
    var ascii := 0;
    for i := 0 to |text|
      invariant ascii == Ascii(text[..i])
    {
      assert text[..i+1][..i] == text[..i];
      if text[i] as int < 128 {
        ascii := ascii + 1;
      }
    }
    assert text[..|text|] == text;
    AsciiOrNot(text);
    var nonAscii := |text| - ascii;
    n := (ascii + 3) / 4 + (nonAscii + 1) / 2;
  }

  // ------------------------------------------------------------------ cutting a text

  /** i is where a cut to m tokens falls: the rune at i is the first with which the text reaches m tokens. */
  ghost predicate IsCut(text: string, m: int, i: int) {
    0 <= i < |text| && Tokens(text[..i]) < m <= Tokens(text[..i+1])
  }

  function CutAt(text: string, m: int, from: nat): (i: nat)
    requires m >= 1 && from < |text| && Tokens(text[..from]) < m <= Tokens(text)
    ensures IsCut(text, m, i)
    decreases |text| - from
  {
    if Tokens(text[..from+1]) >= m then from
    else
      assert text[..|text|] == text;
      CutAt(text, m, from + 1)
  }

  lemma {:induction false} CutIsUnique(text: string, m: int, i: int, j: int)
    requires IsCut(text, m, i) && IsCut(text, m, j)
    ensures i == j
  {
    if i < j { assert text[..j][..i+1] == text[..i+1]; PrefixTokens(text[..j], i + 1); }
    if j < i { assert text[..i][..j+1] == text[..j+1]; PrefixTokens(text[..i], j + 1); }
  }

  function Truncate(text: string, m: int): string {
    if m <= 0 then ""
    else if Tokens(text) < m then text
    else text[..CutAt(text, m, 0)] + MARKER
  }

  /** A text that reaches m tokens has exactly m + 4 after being cut to m. */
  lemma TruncatedTokens(text: string, m: int)
    requires 1 <= m <= Tokens(text)
    ensures Tokens(Truncate(text, m)) == m + 4
  {
    var i := CutAt(text, m, 0);
    OneRune(text, i);
    MarkerCountsFive(text[..i]);
  }

  /** A cut text fits the m tokens it was cut to exactly when nothing had to be cut, or nothing was left. */
  lemma TruncationFitsExactlyWhen(text: string, m: int)
    ensures Tokens(Truncate(text, m)) <= m <==> m == 0 || (m > 0 && Tokens(text) < m)
  {
    if 1 <= m <= Tokens(text) { TruncatedTokens(text, m); }
  }

  /** The text if it has fewer than m tokens; otherwise as much of its beginning as has fewer, and the marker. */
  method TruncateToTokens(text: string, m: int) returns (r: string)
    ensures r == Truncate(text, m)
    ensures m <= 0 ==> r == ""
    ensures m > 0 && Tokens(text) < m ==> r == text
    ensures 0 < m <= Tokens(text) ==>
              exists i :: 0 <= i < |text| && Tokens(text[..i]) < m <= Tokens(text[..i+1]) && r == text[..i] + MARKER
  {
    if m <= 0 {
      return "";
    }
    var ascii, nonAscii := 0, 0;
    for i := 0 to |text|
      invariant ascii == Ascii(text[..i]) && nonAscii == NonAscii(text[..i])
      invariant Tokens(text[..i]) < m
    {
      assert text[..i+1][..i] == text[..i];
      if text[i] as int < 128 {
        ascii := ascii + 1;
      } else {
        nonAscii := nonAscii + 1;
      }
      if (ascii + 3) / 4 + (nonAscii + 1) / 2 >= m {
        PrefixTokens(text, i + 1);
        CutIsUnique(text, m, i, CutAt(text, m, 0));
        return text[..i] + MARKER;
      }
    }
    assert text[..|text|] == text;
    return text;
  }

  // ------------------------------------------------------------------ trimming, in numbers

  function Sum(a: seq<nat>): nat {
    if a == [] then 0 else Sum(a[..|a|-1]) + a[|a|-1]
  }

  /** What no amount of cutting gets below: a message of more than eight tokens can be cut down to eight and no
      further. */
  function Floor(a: seq<nat>): nat {
    if a == [] then 0 else Floor(a[..|a|-1]) + AtMostEight(a[|a|-1])
  }

  function AtMostEight(t: nat): nat {
    if t <= 8 then t else 8
  }

  /** The size of a message of t tokens after being cut to half. */
  function Half(t: nat): nat {
    t / 2 + 4
  }

  function HalveLongest(a: seq<nat>): (r: seq<nat>)
    requires a != []
    ensures |r| == |a|
  {
    a[FirstLargest(a) := Half(a[FirstLargest(a)])]
  }

  /** The test that makes the loop give up, and the condition under which it goes on. */
  predicate NothingToCut(a: seq<nat>) {
    a == [] || a[FirstLargest(a)] <= 1
  }

  predicate Continues(a: seq<nat>, budget: int) {
    Sum(a) > budget && !NothingToCut(a)
  }

  lemma {:induction false} SumUpdate(a: seq<nat>, k: nat, t: nat)
    requires k < |a|
    ensures Sum(a[k := t]) == Sum(a) - a[k] + t
    ensures Floor(a[k := t]) == Floor(a) - AtMostEight(a[k]) + AtMostEight(t)
  {
    var last := |a| - 1;
    if k == last {
      assert a[k := t][..last] == a[..last];
    } else {
      SumUpdate(a[..last], k, t);
      assert a[k := t][..last] == a[..last][k := t];
    }
  }

  lemma {:induction false} FloorBelowSum(a: seq<nat>)
    ensures Floor(a) <= Sum(a) && Floor(a) <= 8 * |a|
    ensures (forall i :: 0 <= i < |a| ==> a[i] <= 8) ==> Floor(a) == Sum(a)
  {
    if a != [] { FloorBelowSum(a[..|a|-1]); }
  }

  /** While the floor fits the budget, a round shortens a message of nine tokens or more and keeps the floor. */
  lemma RoundHelps(a: seq<nat>, budget: int)
    requires Sum(a) > budget && Floor(a) <= budget
    ensures a != [] && a[FirstLargest(a)] >= 9
    ensures Sum(HalveLongest(a)) < Sum(a) && Floor(HalveLongest(a)) == Floor(a)
  {
    FloorBelowSum(a);
    FirstLargestIs(a);
    SumUpdate(a, FirstLargest(a), Half(a[FirstLargest(a)]));
  }

  /** When the floor exceeds the budget, no round brings it down, and there is always something left to cut. */
  lemma RoundDoesNotHelp(a: seq<nat>, budget: int)
    requires Floor(a) > budget && !NothingToCut(a)
    ensures Continues(a, budget)
    ensures Floor(HalveLongest(a)) > budget && !NothingToCut(HalveLongest(a))
  {
    FloorBelowSum(a);
    var k := FirstLargest(a);
    SumUpdate(a, k, Half(a[k]));
    FirstLargestIs(HalveLongest(a));
    assert HalveLongest(a)[k] >= 2;
  }

  /** One round, if the loop goes on. */
  function Round(a: seq<nat>, budget: int): seq<nat> {
    if Continues(a, budget) then HalveLongest(a) else a
  }

  /** The sizes after k rounds, where the loop has not ended before. */
  function Rounds(a: seq<nat>, budget: int, k: nat): seq<nat> {
    if k == 0 then a else Round(Rounds(a, budget, k - 1), budget)
  }

  lemma {:induction false} RoundsForever(a: seq<nat>, budget: int, k: nat)
    requires Floor(a) > budget && !NothingToCut(a)
    ensures Floor(Rounds(a, budget, k)) > budget && !NothingToCut(Rounds(a, budget, k))
    ensures Continues(Rounds(a, budget, k), budget)
  {
    if k > 0 {
      RoundsForever(a, budget, k - 1);
      RoundDoesNotHelp(Rounds(a, budget, k - 1), budget);
    }
    RoundDoesNotHelp(Rounds(a, budget, k), budget);
  }

  lemma {:induction false} RoundsEnd(a: seq<nat>, budget: int) returns (k: nat)
    requires Floor(a) <= budget
    ensures Sum(Rounds(a, budget, k)) <= budget
    decreases Sum(a)
  {
    if Sum(a) <= budget {
      return 0;
    }
    RoundHelps(a, budget);
    var j := RoundsEnd(HalveLongest(a), budget);
    RoundsShift(a, budget, j);
    return j + 1;
  }

  lemma {:induction false} RoundsShift(a: seq<nat>, budget: int, k: nat)
    requires Continues(a, budget)
    ensures Rounds(a, budget, k + 1) == Rounds(HalveLongest(a), budget, k)
  {
    if k > 0 {
      RoundsShift(a, budget, k - 1);
    } else {
      assert Rounds(a, budget, 0) == a;
    }
  }

  lemma {:induction false} StaysPut(a: seq<nat>, budget: int, k: nat)
    requires NothingToCut(a)
    ensures Rounds(a, budget, k) == a
  {
    if k > 0 { StaysPut(a, budget, k - 1); }
  }

  // ------------------------------------------------------------------ trimming messages

  datatype Message = Message(content: string, isUser: bool)

  function Size(m: Message): nat {
    Tokens(m.content)
  }

  function Sizes(msgs: seq<Message>): (a: seq<nat>)
    ensures |a| == |msgs|
  {
    if msgs == [] then [] else Sizes(msgs[..|msgs|-1]) + [Size(msgs[|msgs|-1])]
  }

  lemma {:induction false} SizesAt(msgs: seq<Message>, i: nat)
    requires i < |msgs|
    ensures Sizes(msgs)[i] == Size(msgs[i])
  {
    if i < |msgs| - 1 { SizesAt(msgs[..|msgs|-1], i); }
  }

  function Total(msgs: seq<Message>): nat {
    Sum(Sizes(msgs))
  }

  function CutHalf(m: Message): Message {
    m.(content := Truncate(m.content, Size(m) / 2))
  }

  /** One round of the loop: the longest message is cut to half. */
  function TrimOnce(msgs: seq<Message>): (r: seq<Message>)
    requires msgs != []
    ensures |r| == |msgs|
  {
    msgs[FirstLargest(Sizes(msgs)) := CutHalf(msgs[FirstLargest(Sizes(msgs))])]
  }

  function TrimRound(msgs: seq<Message>, budget: int): seq<Message> {
    if Continues(Sizes(msgs), budget) then TrimOnce(msgs) else msgs
  }

  /** The messages after k rounds of the loop. */
  function Trimmed(msgs: seq<Message>, budget: int, k: nat): seq<Message> {
    if k == 0 then msgs else TrimRound(Trimmed(msgs, budget, k - 1), budget)
  }

  /** Cutting a message to half, in exact numbers. */
  lemma HalfTokens(m: Message)
    requires Size(m) >= 2
    ensures Size(CutHalf(m)) == Half(Size(m))
  {
    TruncatedTokens(m.content, Size(m) / 2);
  }

  lemma {:induction false} SizesUpdate(msgs: seq<Message>, k: nat, m: Message)
    requires k < |msgs|
    ensures Sizes(msgs[k := m]) == Sizes(msgs)[k := Size(m)]
  {
    var last := |msgs| - 1;
    if k == last {
      assert msgs[k := m][..last] == msgs[..last];
    } else {
      SizesUpdate(msgs[..last], k, m);
      assert msgs[k := m][..last] == msgs[..last][k := m];
    }
  }

  lemma SizesOfTrimOnce(msgs: seq<Message>)
    requires !NothingToCut(Sizes(msgs))
    ensures Sizes(TrimOnce(msgs)) == HalveLongest(Sizes(msgs))
  {
    var k := FirstLargest(Sizes(msgs));
    SizesAt(msgs, k);
    HalfTokens(msgs[k]);
    SizesUpdate(msgs, k, CutHalf(msgs[k]));
  }

  lemma SizesOfRound(msgs: seq<Message>, budget: int)
    ensures Sizes(TrimRound(msgs, budget)) == Round(Sizes(msgs), budget)
  {
    if Continues(Sizes(msgs), budget) { SizesOfTrimOnce(msgs); }
  }

  /** The loop on messages does to their sizes what `Rounds` says. */
  lemma {:induction false} SizesOfTrimmed(msgs: seq<Message>, budget: int, k: nat)
    ensures Sizes(Trimmed(msgs, budget, k)) == Rounds(Sizes(msgs), budget, k)
  {
    hide TrimRound, Round, Sizes;
    if k > 0 {
      SizesOfTrimmed(msgs, budget, k - 1);
      SizesOfRound(Trimmed(msgs, budget, k - 1), budget);
    }
  }

  /** Each message counted with at most eight tokens, they fit the budget; or none has more than one token. */
  predicate Trimmable(msgs: seq<Message>, budget: int) {
    Floor(Sizes(msgs)) <= budget || NothingToCut(Sizes(msgs))
  }

  /** Trimming ends exactly when the floor fits the budget or no message has more than one token;
      otherwise the loop runs for ever. */
  lemma TrimmingEndsExactlyWhen(msgs: seq<Message>, budget: int)
    ensures (exists k: nat :: !Continues(Sizes(Trimmed(msgs, budget, k)), budget)) <==> Trimmable(msgs, budget)
  {
    var a := Sizes(msgs);
    if Floor(a) <= budget {
      var k := RoundsEnd(a, budget);
      SizesOfTrimmed(msgs, budget, k);
      assert !Continues(Sizes(Trimmed(msgs, budget, k)), budget);
    } else if NothingToCut(a) {
      assert !Continues(Sizes(Trimmed(msgs, budget, 0)), budget);
    } else {
      forall k: nat ensures Continues(Sizes(Trimmed(msgs, budget, k)), budget) {
        RoundsForever(a, budget, k);
        SizesOfTrimmed(msgs, budget, k);
      }
    }
  }

  /** ... and it ends within the budget exactly when the floor fits it. */
  lemma TrimmingSucceedsExactlyWhen(msgs: seq<Message>, budget: int)
    ensures (exists k: nat :: Total(Trimmed(msgs, budget, k)) <= budget) <==> Floor(Sizes(msgs)) <= budget
  {
    var a := Sizes(msgs);
    if Floor(a) <= budget {
      var k := RoundsEnd(a, budget);
      SizesOfTrimmed(msgs, budget, k);
      assert Total(Trimmed(msgs, budget, k)) <= budget;
    } else {
      forall k: nat ensures Total(Trimmed(msgs, budget, k)) > budget {
        SizesOfTrimmed(msgs, budget, k);
        if NothingToCut(a) {
          StaysPut(a, budget, k);
          FloorBelowSum(a);
        } else {
          RoundsForever(a, budget, k);
        }
      }
    }
  }

  /** Eight tokens for every message are always enough. */
  lemma EightPerMessageSuffices(msgs: seq<Message>, budget: int)
    requires budget >= 8 * |msgs|
    ensures Floor(Sizes(msgs)) <= budget
  {
    FloorBelowSum(Sizes(msgs));
  }

  /** A text of eight tokens that has been cut before. */
  const CUT_BEFORE: Message := Message("abcdefghijkl" + MARKER, true)

  const FIVE_CUT_BEFORE: seq<Message> := [CUT_BEFORE, CUT_BEFORE, CUT_BEFORE, CUT_BEFORE, CUT_BEFORE]

  lemma CutBeforeSize()
    ensures Size(CUT_BEFORE) == 8
  {
    AsciiOrNot("abcdefghijkl");
    AllAscii("abcdefghijkl");
    MarkerCountsFive("abcdefghijkl");
  }

  lemma PairSizes(m: Message)
    ensures Sizes([m, m]) == [Size(m), Size(m)]
    ensures Total([m, m]) == Size(m) + Size(m) && Floor(Sizes([m, m])) == 2 * AtMostEight(Size(m))
  {
    assert [m, m][..1] == [m] && [m][..0] == [];
    assert Sizes([m]) == [Size(m)];
    assert [Size(m), Size(m)][..1] == [Size(m)] && [Size(m)][..0] == [];
    assert Sum([Size(m)]) == Size(m) && Floor([Size(m)]) == AtMostEight(Size(m));
  }

  /** Two messages of eight tokens and a budget of fifteen: every round leaves one of them as long as it was. */
  lemma TrimmingCanRunForever(k: nat)
    ensures Continues(Sizes(Trimmed([CUT_BEFORE, CUT_BEFORE], 15, k)), 15)
  {
    var msgs := [CUT_BEFORE, CUT_BEFORE];
    CutBeforeSize();
    PairSizes(CUT_BEFORE);
    RoundsForever(Sizes(msgs), 15, k);
    SizesOfTrimmed(msgs, 15, k);
  }

  // ------------------------------------------------------------------ what trimming leaves of a message

  /** Either untouched, or cut once: a prefix of the original and one marker, of at least eight tokens. */
  ghost predicate CutOf(original: Message, m: Message) {
    m == original ||
    (m.isUser == original.isUser && Size(original) >= 9 && 8 <= Size(m) < Size(original)
     && exists p :: 0 <= p < |original.content| && m.content == original.content[..p] + MARKER)
  }

  /** Cutting a message that has been cut before falls inside what was left of the original. */
  lemma CutAgain(original: Message, m: Message)
    requires CutOf(original, m) && Size(m) >= 9
    ensures CutOf(original, CutHalf(m))
  {
    HalfTokens(m);
    var half := Size(m) / 2;
    var q := CutAt(m.content, half, 0);
    if m == original {
      assert CutHalf(m).content == original.content[..q] + MARKER;
    } else {
      var p :| 0 <= p < |original.content| && m.content == original.content[..p] + MARKER;
      CutInsideHead(original.content[..p], half, q);
      assert m.content[..q] == original.content[..q];
    }
  }

  /** A text that ends with the marker and has nine tokens or more is cut inside its head. */
  lemma CutInsideHead(head: string, m: int, q: int)
    requires Tokens(head + MARKER) >= 9 && m == Tokens(head + MARKER) / 2 && IsCut(head + MARKER, m, q)
    ensures q < |head|
  {
    MarkerCountsFive(head);
    if |head| <= q {
      assert (head + MARKER)[..q][..|head|] == head;
      PrefixTokens((head + MARKER)[..q], |head|);
    }
  }

  ghost predicate AllCuts(msgs: seq<Message>, out: seq<Message>) {
    |out| == |msgs| && forall i :: 0 <= i < |msgs| ==> CutOf(msgs[i], out[i])
  }

  ghost predicate FloorKept(msgs: seq<Message>, out: seq<Message>, budget: int) {
    if Floor(Sizes(msgs)) <= budget then Floor(Sizes(out)) <= budget else out == msgs
  }

  lemma Untouched(msgs: seq<Message>)
    ensures AllCuts(msgs, msgs)
  {
  }

  lemma TrimStep(msgs: seq<Message>, out: seq<Message>, budget: int)
    requires AllCuts(msgs, out) && FloorKept(msgs, out, budget) && Continues(Sizes(out), budget)
    requires Trimmable(msgs, budget)
    ensures AllCuts(msgs, TrimOnce(out)) && FloorKept(msgs, TrimOnce(out), budget)
    ensures Total(TrimOnce(out)) < Total(out)
  {
    hide Sizes, HalveLongest, FirstLargest;
    var k := FirstLargest(Sizes(out));
    RoundHelps(Sizes(out), budget);
    SizesOfTrimOnce(out);
    SizesAt(out, k);
    CutAgain(msgs[k], out[k]);
  }

  method TrimLongMessages(msgs: seq<Message>, budget: int) returns (out: seq<Message>)
    requires Trimmable(msgs, budget)
    ensures AllCuts(msgs, out)
    ensures Floor(Sizes(msgs)) <= budget ==> Total(out) <= budget
    ensures exists k: nat :: out == Trimmed(msgs, budget, k) && !Continues(Sizes(out), budget)
  {
    out := msgs;
    ghost var k := 0;
    while true
      invariant AllCuts(msgs, out) && FloorKept(msgs, out, budget) && out == Trimmed(msgs, budget, k)
      decreases Total(out)
    {
      var total := EstimateTokens(out);
      if total <= budget {
        break;
      }
      var idx, maxTok := FindLongest(out);
      if idx < 0 || maxTok <= 1 {
        GaveUp(msgs, out, budget);
        break;
      }
      TrimStep(msgs, out, budget);
      SizesAt(out, idx);
      var content := TruncateToTokens(out[idx].content, maxTok / 2);
      out := out[idx := out[idx].(content := content)];
      k := k + 1;
    }
  }

  lemma GaveUp(msgs: seq<Message>, out: seq<Message>, budget: int)
    requires FloorKept(msgs, out, budget) && Total(out) > budget && NothingToCut(Sizes(out))
    ensures Floor(Sizes(msgs)) > budget
  {
    if Floor(Sizes(out)) <= budget { RoundHelps(Sizes(out), budget); }
  }

  method EstimateTokens(msgs: seq<Message>) returns (total: nat)
    ensures total == Total(msgs)
  {
    total := 0;
    for i := 0 to |msgs|
      invariant total == Total(msgs[..i])
    {
      var n := CountTokens(msgs[i].content);
      TotalNext(msgs, i);
      total := total + n;
    }
    assert msgs[..|msgs|] == msgs;
  }

  lemma TotalNext(msgs: seq<Message>, i: nat)
    requires i < |msgs|
    ensures Total(msgs[..i+1]) == Total(msgs[..i]) + Size(msgs[i])
  {
    assert msgs[..i+1][..i] == msgs[..i];
    assert Sizes(msgs[..i+1])[..i] == Sizes(msgs[..i]);
  }

  /** The inner loop: -1 when no message has any token. */
  method FindLongest(msgs: seq<Message>) returns (idx: int, maxTok: nat)
    ensures idx == -1 ==> maxTok == 0 && NothingToCut(Sizes(msgs))
    ensures idx != -1 ==> msgs != [] && idx == FirstLargest(Sizes(msgs)) && maxTok == Sizes(msgs)[idx]
  {
    ghost var a := Sizes(msgs);
    idx, maxTok := -1, 0;
    for i := 0 to |msgs|
      invariant -1 <= idx < i
      invariant idx == -1 ==> maxTok == 0
      invariant idx != -1 ==> maxTok == a[idx] > 0
      invariant forall j :: 0 <= j < i ==> a[j] <= maxTok
      invariant idx != -1 ==> forall j :: 0 <= j < idx ==> a[j] < maxTok
    {
      var tok := CountTokens(msgs[i].content);
      SizesAt(msgs, i);
      if tok > maxTok {
        idx, maxTok := i, tok;
      }
    }
    if idx != -1 {
      FirstLargestIs(a);
      FirstLargestIsUnique(a, idx, FirstLargest(a));
    }
  }

  // ------------------------------------------------------------------ the running summary

  const BREAK: string := "\n\n"

  /** The longest run of last paragraphs that fits, or the last one alone. */
  function Newest(parts: seq<string>, maxRunes: int): (r: seq<string>)
    requires parts != []
    ensures r != [] && |r| <= |parts| && r == parts[|parts|-|r|..]
  {
    if |parts| > 1 && |Join(parts, BREAK)| > maxRunes then Newest(parts[1..], maxRunes) else parts
  }

  /** New summaries are appended to old ones; beyond the limit the oldest paragraphs go first. */
  function Merged(prev: string, next: string, maxRunes: int): string {
    var latest := TrimSpace(next);
    if prev == "" then latest
    else if latest == "" then prev
    else
      var merged := prev + BREAK + latest;
      if maxRunes <= 0 || |merged| <= maxRunes then merged
      else Join(Newest(Split(merged, BREAK), maxRunes), BREAK)
  }

  method MergeSummary(prev: string, next: string, maxRunes: int) returns (r: string)
    ensures r == Merged(prev, next, maxRunes)
    ensures prev == "" ==> r == TrimSpace(next)
    ensures TrimSpace(next) == "" ==> r == prev
    ensures prev != "" && TrimSpace(next) != "" && (maxRunes <= 0 || |prev| + 2 + |TrimSpace(next)| <= maxRunes) ==>
              r == prev + BREAK + TrimSpace(next)
  {
    var latest := TrimSpace(next);
    if prev == "" {
      return latest;
    }
    if latest == "" {
      return prev;
    }
    var merged := prev + BREAK + latest;
    if maxRunes <= 0 || |merged| <= maxRunes {
      return merged;
    }
    var parts := Split(merged, BREAK);
    while |parts| > 1 && |Join(parts, BREAK)| > maxRunes
      invariant parts != []
      invariant Newest(parts, maxRunes) == Newest(Split(merged, BREAK), maxRunes)
      decreases |parts|
    {
      parts := parts[1..];
    }
    return Join(parts, BREAK);
  }

  /** Dropping fewer paragraphs than `Newest` does would not have fitted. */
  lemma {:induction false} NewestIsLongest(parts: seq<string>, maxRunes: int, k: nat)
    requires parts != [] && |Newest(parts, maxRunes)| < |parts| - k
    ensures |Join(parts[k..], BREAK)| > maxRunes
  {
    if k == 0 {
      assert parts[0..] == parts;
    } else {
      NewestIsLongest(parts[1..], maxRunes, k - 1);
      assert parts[1..][k-1..] == parts[k..];
    }
  }

  lemma {:induction false} NewestFits(parts: seq<string>, maxRunes: int)
    requires parts != []
    ensures |Newest(parts, maxRunes)| == 1 || |Join(Newest(parts, maxRunes), BREAK)| <= maxRunes
  {
    if |parts| > 1 && |Join(parts, BREAK)| > maxRunes {
      NewestFits(parts[1..], maxRunes);
    }
  }

  /** r is what remains from paragraph k on; it fits, or is one paragraph; starting any earlier would not have
      fitted. */
  ghost predicate LongestFittingEnd(parts: seq<string>, k: int, r: string, maxRunes: int) {
    && 0 <= k < |parts| && r == Join(parts[k..], BREAK)
    && (|r| <= maxRunes || k == |parts| - 1)
    && (forall j :: 0 <= j < k ==> |Join(parts[j..], BREAK)| > maxRunes)
  }

  lemma NewestIsLongestFittingEnd(parts: seq<string>, maxRunes: int)
    requires parts != []
    ensures LongestFittingEnd(parts, |parts| - |Newest(parts, maxRunes)|, Join(Newest(parts, maxRunes), BREAK),
        maxRunes)
  {
    var k := |parts| - |Newest(parts, maxRunes)|;
    NewestFits(parts, maxRunes);
    forall j | 0 <= j < k ensures |Join(parts[j..], BREAK)| > maxRunes {
      NewestIsLongest(parts, maxRunes, j);
    }
  }

  /** A merge of two non-empty summaries with a limit is the end of their concatenation, consists of whole paragraphs,
      fits the limit unless it is a single paragraph, and could not have kept one paragraph more. */
  lemma MergedIsLongestFittingEnd(prev: string, next: string, maxRunes: int) returns (k: nat)
    requires prev != "" && TrimSpace(next) != "" && maxRunes > 0
    ensures var merged := prev + BREAK + TrimSpace(next);
            && HasSuffix(merged, Merged(prev, next, maxRunes))
            && LongestFittingEnd(Split(merged, BREAK), k, Merged(prev, next, maxRunes), maxRunes)
  {
    var merged := prev + BREAK + TrimSpace(next);
    var parts := Split(merged, BREAK);
    JoinSplit(merged, BREAK);
    if |merged| <= maxRunes {
      k := 0;
      assert parts[0..] == parts;
    } else {
      k := |parts| - |Newest(parts, maxRunes)|;
      NewestIsLongestFittingEnd(parts, maxRunes);
      JoinDrop(parts, BREAK, k);
    }
  }

  /** Every cut of `front + last` falls inside `front`, so the last part ends with the whole of `last`. */
  lemma {:induction false} LastPartKeepsEnd(front: string, last: string)
    requires last != "" && last[0] != '\n' && IndexOf(last, BREAK) == -1
    ensures var parts := Split(front + last, BREAK); HasSuffix(parts[|parts|-1], last)
    decreases |front|
  {
    var s := front + last;
    var i := IndexOf(s, BREAK);
    if i != -1 {
      CutInsideFront(front, last, i);
      var rest := s[i+|BREAK|..];
      assert rest == front[i+2..] + last;
      LastPartKeepsEnd(front[i+2..], last);
      var parts := Split(rest, BREAK);
      assert Split(s, BREAK)[|parts|] == parts[|parts|-1];
    }
  }

  lemma CutInsideFront(front: string, last: string, i: int)
    requires last != "" && last[0] != '\n' && IndexOf(last, BREAK) == -1
    requires At(front + last, BREAK, i)
    ensures i + 2 <= |front|
  {
    var s := front + last;
    assert s[i..i+2][0] == s[i] && s[i..i+2][1] == s[i+1];
    if i >= |front| {
      var j := i - |front|;
      assert last[j..j+2] == s[i..i+2];
      IndexOfIsFirst(last, BREAK, j);
    }
  }

  /** The newest summary always survives, whole, when it is a single paragraph. */
  lemma NewestSummarySurvives(prev: string, next: string, maxRunes: int)
    requires IndexOf(TrimSpace(next), BREAK) == -1
    ensures HasSuffix(Merged(prev, next, maxRunes), TrimSpace(next))
  {
    hide TrimSpace, Split, Join, Newest, IndexOf;
    var latest := TrimSpace(next);
    var merged := prev + BREAK + latest;
    if prev != "" && latest != "" && maxRunes > 0 && |merged| > maxRunes {
      TrimmedStart(next);
      LastPartKeepsEnd(prev + BREAK, latest);
      var parts := Split(merged, BREAK);
      NewestKeepsLast(parts, maxRunes);
      SuffixTrans(Join(Newest(parts, maxRunes), BREAK), parts[|parts|-1], latest);
    }
  }

  lemma NewestKeepsLast(parts: seq<string>, maxRunes: int)
    requires parts != []
    ensures HasSuffix(Join(Newest(parts, maxRunes), BREAK), parts[|parts|-1])
  {
    var newest := Newest(parts, maxRunes);
    JoinDrop(newest, BREAK, |newest| - 1);
    assert newest[|newest|-1..] == [parts[|parts|-1]];
  }

  lemma {:induction false} TrimLeftStart(s: string)
    ensures TrimLeft(s) == "" || !IsSpace(TrimLeft(s)[0])
  {
    if s != [] && IsSpace(s[0]) { TrimLeftStart(s[1..]); }
  }

  lemma {:induction false} TrimRightIsPrefix(s: string)
    ensures HasPrefix(s, TrimRight(s))
  {
    if s != [] && IsSpace(s[|s|-1]) { TrimRightIsPrefix(s[..|s|-1]); }
  }

  lemma TrimmedStart(s: string)
    ensures TrimSpace(s) == "" || !IsSpace(TrimSpace(s)[0])
  {
    TrimLeftStart(s);
    TrimRightIsPrefix(TrimLeft(s));
  }

  // ------------------------------------------------------------------ compressing a history

  /** The sum of a from index i on. */
  function SumFrom(a: seq<nat>, i: nat): nat
    decreases |a| - i
  {
    if i >= |a| then 0 else a[i] + SumFrom(a, i + 1)
  }

  /** Where the loop stops that drops the oldest message while more than two are over the budget. */
  function Start(a: seq<nat>, budget: int, i: nat): nat
    decreases |a| - i
  {
    if |a| - i > 2 && SumFrom(a, i) > budget then Start(a, budget, i + 1) else i
  }

  lemma {:induction false} StartStops(a: seq<nat>, budget: int, i: nat)
    requires i <= |a|
    ensures i <= Start(a, budget, i) <= Max(i, |a| - 2)
    ensures Start(a, budget, i) >= |a| - 2 || SumFrom(a, Start(a, budget, i)) <= budget
    decreases |a| - i
  {
    if |a| - i > 2 && SumFrom(a, i) > budget { StartStops(a, budget, i + 1); }
  }

  /** Stopping anywhere earlier would be over the budget. */
  lemma {:induction false} StartIsFirst(a: seq<nat>, budget: int, i: nat, j: nat)
    requires i <= j < Start(a, budget, i)
    ensures SumFrom(a, j) > budget
    decreases |a| - i
  {
    if i < j { StartIsFirst(a, budget, i + 1, j); }
  }

  lemma {:induction false} SumFromLast(a: seq<nat>, i: nat)
    requires i < |a|
    ensures SumFrom(a, i) == SumFrom(a[..|a|-1], i) + a[|a|-1]
    decreases |a| - i
  {
    if i < |a| - 1 { SumFromLast(a, i + 1); }
  }

  lemma {:induction false} SumFromZero(a: seq<nat>)
    ensures SumFrom(a, 0) == Sum(a)
  {
    if a != [] {
      SumFromLast(a, 0);
      SumFromZero(a[..|a|-1]);
    }
  }

  lemma {:induction false} SumFromFalls(a: seq<nat>, i: nat, j: nat)
    requires i <= j
    ensures SumFrom(a, j) <= SumFrom(a, i)
    decreases j - i
  {
    if i < j { SumFromFalls(a, i + 1, j); }
  }

  /** The tokens of the messages from index i on. */
  function TotalFrom(msgs: seq<Message>, i: nat): nat {
    SumFrom(Sizes(msgs), i)
  }

  lemma {:induction false} TotalFromIs(msgs: seq<Message>, i: nat)
    requires i <= |msgs|
    ensures TotalFrom(msgs, i) == Total(msgs[i..])
  {
    if i < |msgs| {
      var front := msgs[..|msgs|-1];
      TotalFromIs(front, i);
      SumFromLast(Sizes(msgs), i);
      assert Sizes(msgs)[..|msgs|-1] == Sizes(front);
      assert msgs[i..][..|msgs[i..]|-1] == front[i..];
      assert Sizes(msgs[i..])[..|msgs[i..]|-1] == Sizes(front[i..]);
    }
  }

  /** What is kept of a history that is too long, before anything is cut: the last two messages at least,
      six at most, never all, and as many of those as fit the budget. */
  lemma WhatIsKept(a: seq<nat>, budget: int, from: nat, start: nat)
    requires Sum(a) > budget && |a| > 4 && from == Max(|a| - 6, 0) && start == Start(a, budget, from)
    ensures from <= start <= |a| - 2 && 0 < start
    ensures start == |a| - 2 || SumFrom(a, start) <= budget
    ensures start > from ==> SumFrom(a, start - 1) > budget
  {
    StartStops(a, budget, from);
    if start > from {
      StartIsFirst(a, budget, from, start - 1);
    } else if from == 0 {
      SumFromZero(a);
    }
  }

  /** What the loop that drops messages leaves of the last six. */
  function Recent(msgs: seq<Message>, budget: int): seq<Message> {
    var start := Start(Sizes(msgs), budget, Max(|msgs| - 6, 0));
    if 0 <= start <= |msgs| then msgs[start..] else []
  }

  /** A good choice of what to keep: whole messages from the end, at least two, at most six, never all; one more would
      not have fitted; only the last two are ever cut, only when they do not fit, and by the loop that halves the
      longest; what is kept fits the budget unless it is two messages that cannot be cut to it. */
  ghost predicate KeptWell(msgs: seq<Message>, budget: int, kept: seq<Message>) {
    && 2 <= |kept| <= 6 && |kept| < |msgs|
    && var last := msgs[|msgs|-|kept|..];
       && AllCuts(last, kept)
       && (|kept| > 2 ==> kept == last && Total(kept) <= budget)
       && (Total(last) <= budget ==> kept == last)
       && (|kept| < Min(6, |msgs|) ==> TotalFrom(msgs, |msgs| - |kept| - 1) > budget)
       && (Floor(Sizes(last)) <= budget ==> Total(kept) <= budget)
       && (exists k: nat :: kept == Trimmed(last, budget, k) && !Continues(Sizes(kept), budget))
  }

  lemma KeptSome(msgs: seq<Message>, budget: int, kept: seq<Message>)
    requires KeptWell(msgs, budget, kept)
    ensures 2 <= |kept| < |msgs|
    ensures |kept| > 2 ==> kept == msgs[|msgs|-|kept|..] && Total(kept) <= budget
    ensures |kept| < 6 ==> TotalFrom(msgs, |msgs| - |kept| - 1) > budget
  {
  }

  lemma AssembleKept(msgs: seq<Message>, budget: int, start: nat, kept: seq<Message>)
    requires 0 < start && start + |kept| == |msgs| && 2 <= |kept| <= 6
    requires AllCuts(msgs[start..], kept)
    requires |kept| > 2 ==> kept == msgs[start..] && Total(kept) <= budget
    requires Total(msgs[start..]) <= budget ==> kept == msgs[start..]
    requires |kept| < Min(6, |msgs|) ==> TotalFrom(msgs, start - 1) > budget
    requires Floor(Sizes(msgs[start..])) <= budget ==> Total(kept) <= budget
    requires exists k: nat :: kept == Trimmed(msgs[start..], budget, k) && !Continues(Sizes(kept), budget)
    ensures KeptWell(msgs, budget, kept)
  {
    assert |msgs| - |kept| == start;
  }

  class Compressor {
    const maxTokens: int

    constructor (maxTokens: int)
      ensures this.maxTokens == if maxTokens <= 0 then 4000 else maxTokens
    {
      this.maxTokens := if maxTokens <= 0 then 4000 else maxTokens;
    }

    /** What the kept messages may take: the limit less the old summary, but at least a quarter of the limit. */
    function Budget(prevSummary: string): int {
      Max(maxTokens - Tokens(prevSummary), maxTokens / 4)
    }

    /** Whether there is anything to do. */
    predicate TooLong(msgs: seq<Message>) {
      Total(msgs) > maxTokens && |msgs| > 4
    }

    /** What is kept of a history that is too long, cut to the budget where dropping is not enough. */
    method KeepRecent(msgs: seq<Message>, budget: int) returns (kept: seq<Message>)
      requires Total(msgs) > budget && |msgs| > 4 && Trimmable(msgs[|msgs|-2..], budget)
      ensures KeptWell(msgs, budget, kept)
    {
      var keepFrom := |msgs| - 6;
      if keepFrom < 0 {
        keepFrom := 0;
      }
      var start := DropWhileOver(msgs, keepFrom, budget);
      var recent := msgs[start..];
      WhatIsKept(Sizes(msgs), budget, keepFrom, start);
      TotalFromIs(msgs, start);
      var size := EstimateTokens(recent);
      if size > budget && |recent| > 0 {
        kept := TrimLongMessages(recent, budget);
      } else {
        kept := recent;
        Untouched(recent);
        assert kept == Trimmed(recent, budget, 0);
      }
      AssembleKept(msgs, budget, start, kept);
    }

    /** Compress. The model's answer to the request for a summary is a parameter, None when it failed;
        `dropped` are the messages it was asked to summarise. */
    method Compress(msgs: seq<Message>, answer: Option<string>, prevSummary: string)
      returns (kept: seq<Message>, summary: string, failed: bool, dropped: seq<Message>)
      requires maxTokens > 0
      requires TooLong(msgs) ==> Trimmable(msgs[|msgs|-2..], Budget(prevSummary))
      ensures !TooLong(msgs) || failed ==> kept == msgs && summary == prevSummary
      ensures failed <==> TooLong(msgs) && answer == None
      ensures TooLong(msgs) ==> |dropped| > 0 && dropped <= msgs
      ensures TooLong(msgs) && !failed ==>
                && KeptWell(msgs, Budget(prevSummary), kept) && dropped == msgs[..|msgs|-|kept|]
                && summary == Merged(prevSummary, answer.value, maxTokens / 2)
      // what that means for the caller
      ensures Total(msgs) <= maxTokens || |msgs| <= 4 ==> kept == msgs && summary == prevSummary && !failed
      ensures Total(msgs) > maxTokens && |msgs| > 4 && !failed ==>
                && answer.Some? && 2 <= |kept| <= 6 && |kept| < |msgs|
                && dropped != [] && dropped + msgs[|msgs|-|kept|..] == msgs
                && summary == Merged(prevSummary, answer.value, maxTokens / 2)
                && (|kept| > 2 ==> kept == msgs[|msgs|-|kept|..])
                && (|kept| < 6 ==> TotalFrom(msgs, |msgs| - |kept| - 1)
                                   > Max(maxTokens - Tokens(prevSummary), maxTokens / 4))
      ensures maxTokens >= 64 && |msgs| > 4 && !failed ==> Total(kept) <= maxTokens
      ensures maxTokens >= 64 && Total(msgs) > maxTokens && |msgs| > 4 && !failed ==>
                Total(kept) <= Max(maxTokens - Tokens(prevSummary), maxTokens / 4)
    {
      hide KeptWell, Merged;
      dropped := [];
      var total := EstimateTokens(msgs);
      if total <= maxTokens || |msgs| <= 4 {
        return msgs, prevSummary, false, [];
      }
      var used := CountTokens(prevSummary);
      var budget := maxTokens - used;
      if budget < maxTokens / 4 {
        budget := maxTokens / 4;
      }
      kept := KeepRecent(msgs, budget);
      KeptSome(msgs, budget, kept);
      dropped := msgs[..|msgs|-|kept|];
      if answer == None {
        return msgs, prevSummary, true, dropped;
      }
      summary := MergeSummary(prevSummary, answer.value, maxTokens / 2);
      failed := false;
      if maxTokens >= 64 { KeptFits(msgs, prevSummary, kept); }
    }

    /** The loop that drops the oldest of the recent messages; the rest starts at the returned index. */
    method DropWhileOver(msgs: seq<Message>, keepFrom: nat, budget: int) returns (start: nat)
      requires keepFrom <= |msgs|
      ensures start == Start(Sizes(msgs), budget, keepFrom) && start <= |msgs|
    {
      start := keepFrom;
      var recent := msgs[keepFrom..];
      while true
        invariant start <= |msgs| && recent == msgs[start..]
        invariant Start(Sizes(msgs), budget, start) == Start(Sizes(msgs), budget, keepFrom)
        decreases |recent|
      {
        var size := EstimateTokens(recent);
        TotalFromIs(msgs, start);
        if !(|recent| > 2 && size > budget) {
          return;
        }
        recent, start := recent[1..], start + 1;
      }
    }

    /** From 64 tokens upwards two messages can always be cut to the budget. */
    lemma SixtyFourSuffices(msgs: seq<Message>, prevSummary: string)
      requires maxTokens >= 64 && |msgs| <= 2
      ensures Floor(Sizes(msgs)) <= Budget(prevSummary) && Trimmable(msgs, Budget(prevSummary))
    {
      FloorBelowSum(Sizes(msgs));
    }

    lemma KeptFits(msgs: seq<Message>, prevSummary: string, kept: seq<Message>)
      requires maxTokens >= 64 && KeptWell(msgs, Budget(prevSummary), kept)
      ensures Total(kept) <= Budget(prevSummary)
    {
      if |kept| == 2 { SixtyFourSuffices(msgs[|msgs|-2..], prevSummary); }
    }

    /** Compressing a long history ends exactly when the condition on its last two messages holds. */
    lemma CompressEndsExactlyWhen(msgs: seq<Message>, prevSummary: string)
      requires maxTokens > 0 && TooLong(msgs)
      ensures var budget := Budget(prevSummary);
              (exists k: nat :: !Continues(Sizes(Trimmed(Recent(msgs, budget), budget, k)), budget))
              <==> Trimmable(msgs[|msgs|-2..], budget)
    {
      var budget := Budget(prevSummary);
      var start := Start(Sizes(msgs), budget, Max(|msgs| - 6, 0));
      WhatIsKept(Sizes(msgs), budget, Max(|msgs| - 6, 0), start);
      TrimmingEndsExactlyWhen(Recent(msgs, budget), budget);
      if start < |msgs| - 2 {
        TotalFromIs(msgs, start);
        TotalFromIs(msgs, |msgs| - 2);
        SumFromFalls(Sizes(msgs), start, |msgs| - 2);
        FloorBelowSum(Sizes(msgs[start..]));
        FloorBelowSum(Sizes(msgs[|msgs|-2..]));
      }
    }

    /** A history of five messages of eight tokens, with a limit of fifteen, is compressed for ever. */
    lemma CompressCanRunForever(k: nat)
      requires maxTokens == 15
      ensures TooLong(FIVE_CUT_BEFORE)
      ensures Continues(Sizes(Trimmed(Recent(FIVE_CUT_BEFORE, Budget("")), Budget(""), k)), Budget(""))
    {
      CutBeforeSize();
      PairSizes(CUT_BEFORE);
      var msgs := FIVE_CUT_BEFORE;
      assert msgs[3..] == [CUT_BEFORE, CUT_BEFORE];
      TotalFromIs(msgs, 3);
      TotalFromIs(msgs, 0);
      assert msgs[0..] == msgs;
      SumFromFalls(Sizes(msgs), 0, 3);
      CompressEndsExactlyWhen(msgs, "");
    }
  }
}
