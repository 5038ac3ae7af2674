/** The string operations of the Go library that the program relies on, over sequences of runes. */
module Text {
  /** unicode.IsSpace. */
  predicate IsSpace(c: char) {
    || c == ' ' || c == '\t' || c == '\n' || c == '\r' || c as int == 0x0B || c as int == 0x0C
    || c as int == 0x85 || c as int == 0xA0 || c as int == 0x1680 || 0x2000 <= c as int <= 0x200A
    || c as int == 0x2028 || c as int == 0x2029 || c as int == 0x202F || c as int == 0x205F || c as int == 0x3000
  }

  function TrimLeft(s: string): string {
    if s != [] && IsSpace(s[0]) then TrimLeft(s[1..]) else s
  }

  function TrimRight(s: string): string {
    if s != [] && IsSpace(s[|s|-1]) then TrimRight(s[..|s|-1]) else s
  }

  function TrimSpace(s: string): string {
    TrimRight(TrimLeft(s))
  }

  predicate Blank(s: string) {
    forall i :: 0 <= i < |s| ==> IsSpace(s[i])
  }

  lemma {:induction false} TrimLeftIs(s: string) returns (n: nat)
    ensures n <= |s| && TrimLeft(s) == s[n..] && Blank(s[..n])
    ensures TrimLeft(s) != [] ==> !IsSpace(TrimLeft(s)[0])
  {
    if s != [] && IsSpace(s[0]) {
      n := TrimLeftIs(s[1..]);
      assert s[1..][n..] == s[n+1..];
      assert s[..n+1] == [s[0]] + s[1..][..n];
      n := n + 1;
    } else {
      n := 0;
    }
  }

  lemma {:induction false} TrimRightIs(s: string) returns (n: nat)
    ensures n <= |s| && TrimRight(s) == s[..n] && Blank(s[n..])
    ensures TrimRight(s) != [] ==> !IsSpace(TrimRight(s)[|TrimRight(s)|-1])
  {
    if s != [] && IsSpace(s[|s|-1]) {
      n := TrimRightIs(s[..|s|-1]);
      assert s[..|s|-1][..n] == s[..n];
      assert s[n..] == s[..|s|-1][n..] + [s[|s|-1]];
    } else {
      n := |s|;
    }
  }

  /** What is trimmed off is blank, and what is left neither starts nor ends with a blank. */
  lemma TrimSpaceIs(s: string) returns (from: nat, to: nat)
    ensures from <= to <= |s| && TrimSpace(s) == s[from..to] && Blank(s[..from]) && Blank(s[to..])
    ensures from < to ==> !IsSpace(s[from]) && !IsSpace(s[to-1])
  {
    from := TrimLeftIs(s);
    var n := TrimRightIs(s[from..]);
    to := from + n;
    assert s[from..][..n] == s[from..to] && s[from..][n..] == s[to..];
    assert TrimSpace(s) == s[from..to];
    if from < to {
      assert s[from] == TrimLeft(s)[0] && s[to-1] == s[from..to][to-1-from];
    }
  }

  /** `sep` occurs in s at i. */
  predicate At(s: string, sep: string, i: int) {
    0 <= i && i + |sep| <= |s| && s[i..i+|sep|] == sep
  }

  predicate HasPrefix(s: string, p: string) {
    |p| <= |s| && s[..|p|] == p
  }

  predicate HasSuffix(s: string, p: string) {
    |p| <= |s| && s[|s|-|p|..] == p
  }

  /** The first place at which `sep` occurs in s, or -1. */
  function IndexOf(s: string, sep: string): (i: int)
    requires sep != []
    ensures i == -1 || At(s, sep, i)
    decreases |s|
  {
    if |s| < |sep| then -1
    else if HasPrefix(s, sep) then 0
    else
      var i := IndexOf(s[1..], sep);
      if i == -1 then -1
      else
        assert s[i+1..i+1+|sep|] == s[1..][i..i+|sep|];
        i + 1
  }

  lemma {:induction false} IndexOfIsFirst(s: string, sep: string, j: int)
    requires sep != [] && At(s, sep, j)
    ensures 0 <= IndexOf(s, sep) <= j
    decreases |s|
  {
    if !HasPrefix(s, sep) {
      assert j > 0;
      assert s[1..][j-1..j-1+|sep|] == s[j..j+|sep|];
      IndexOfIsFirst(s[1..], sep, j - 1);
    }
  }

  /** strings.Split for a non-empty separator. */
  function Split(s: string, sep: string): (parts: seq<string>)
    requires sep != []
    ensures parts != []
    decreases |s|
  {
    var i := IndexOf(s, sep);
    if i == -1 then [s] else [s[..i]] + Split(s[i+|sep|..], sep)
  }

  /** strings.Join. */
  function Join(parts: seq<string>, sep: string): string {
    if parts == [] then [] else if |parts| == 1 then parts[0] else parts[0] + sep + Join(parts[1..], sep)
  }

  lemma {:induction false} JoinSplit(s: string, sep: string)
    requires sep != []
    ensures Join(Split(s, sep), sep) == s
    decreases |s|
  {
    var i := IndexOf(s, sep);
    if i != -1 {
      JoinSplit(s[i+|sep|..], sep);
      assert Split(s, sep)[1..] == Split(s[i+|sep|..], sep);
      assert s == s[..i] + s[i..i+|sep|] + s[i+|sep|..];
    }
  }

  /** Splitting at a separator that occurs makes every part shorter than the whole. */
  lemma {:induction false} PartsAreShorter(s: string, sep: string, k: nat)
    requires sep != [] && k < |Split(s, sep)|
    ensures |Split(s, sep)[k]| <= |s|
    ensures |Split(s, sep)| > 1 ==> |Split(s, sep)[k]| < |s|
    decreases |s|
  {
    var i := IndexOf(s, sep);
    if i != -1 {
      var rest := s[i+|sep|..];
      if k > 0 {
        assert Split(s, sep)[k] == Split(rest, sep)[k-1];
        PartsAreShorter(rest, sep, k - 1);
      }
    }
  }

  lemma {:induction false} JoinDrop(parts: seq<string>, sep: string, k: nat)
    requires k < |parts|
    ensures HasSuffix(Join(parts, sep), Join(parts[k..], sep))
  {
    if k > 0 {
      JoinDrop(parts[1..], sep, k - 1);
      assert parts[1..][k-1..] == parts[k..];
      SuffixOfConcat(parts[0] + sep, Join(parts[1..], sep), Join(parts[k..], sep));
    } else {
      assert parts[0..] == parts;
    }
  }

  lemma SuffixOfConcat(a: string, b: string, c: string)
    requires HasSuffix(b, c)
    ensures HasSuffix(a + b, c)
  {
  }

  lemma SuffixTrans(a: string, b: string, c: string)
    requires HasSuffix(a, b) && HasSuffix(b, c)
    ensures HasSuffix(a, c)
  {
    assert a[|a|-|c|..] == a[|a|-|b|..][|b|-|c|..];
  }
}
