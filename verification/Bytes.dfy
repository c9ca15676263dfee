/** A value that may be missing. */
module Options {

  datatype Option<+T> = None | Some(value: T)
}

/** Searching and slicing of byte strings, as the parser does it with memchr,
    memmem and std::string::find. */
module Bytes {
  import opened Options

  const CRLF: string := "\r\n"
  const CRLFCRLF: string := "\r\n\r\n"

  /** First index at or after `from` that holds `c`, or |s| when there is none. */
  function IndexFrom(s: string, c: char, from: nat): (i: nat)
    requires from <= |s|
    ensures from <= i <= |s|
    ensures i < |s| ==> s[i] == c
    ensures forall j :: from <= j < i ==> s[j] != c
    decreases |s| - from
  {
    if from == |s| || s[from] == c then from else IndexFrom(s, c, from + 1)
  }

  /** `pat` occurs in `s` at index i. */
  predicate OccursAt(s: string, pat: string, i: nat) {
    i + |pat| <= |s| && s[i..i + |pat|] == pat
  }

  /** First occurrence of `pat` at or after `from`. */
  function Find(s: string, pat: string, from: nat): (r: Option<nat>)
    ensures r.Some? ==> from <= r.value && OccursAt(s, pat, r.value)
    ensures r.Some? ==> forall j :: from <= j < r.value ==> !OccursAt(s, pat, j)
    ensures r.None? ==> forall j :: from <= j ==> !OccursAt(s, pat, j)
    decreases |s| - from
  {
    if from + |pat| > |s| then None
    else if OccursAt(s, pat, from) then Some(from)
    else Find(s, pat, from + 1)
  }

  lemma FirstOccurrence(s: string, pat: string, k: nat)
    requires OccursAt(s, pat, k)
    ensures Find(s, pat, 0).Some? && Find(s, pat, 0).value <= k
  {
  }

  lemma SliceOfPrefix(s: string, n: nat, i: nat, j: nat)
    requires i <= j <= n <= |s|
    ensures s[..n][i..j] == s[i..j]
  {
  }

  predicate NoCR(s: string) {
    forall i :: 0 <= i < |s| ==> s[i] != '\r'
  }

  /** The line search of `extract_line`: only the first carriage return counts,
      and it ends a line only when a line feed follows it. */
  function LineEnd(p: string): (r: Option<nat>)
    ensures r.Some? ==> r.value + 2 <= |p| && NoCR(p[..r.value]) && p[r.value..r.value + 2] == CRLF
  {
    var i := IndexFrom(p, '\r', 0);
    if i + 1 < |p| && p[i + 1] == '\n' then Some(i) else None
  }

  /** A carriage-return-free prefix followed by CRLF is the line that is found. */
  lemma LineEndOf(line: string, rest: string)
    requires NoCR(line)
    ensures LineEnd(line + CRLF + rest) == Some(|line|)
  {
    var p := line + CRLF + rest;
    assert p[|line|] == '\r' && p[|line| + 1] == '\n';
    assert forall j :: 0 <= j < |line| ==> p[j] == line[j];
  }

  /** A line once found stays the line when more bytes arrive. */
  lemma LineEndExtends(p: string, d: string)
    requires LineEnd(p).Some?
    ensures LineEnd(p + d) == LineEnd(p)
  {
    var i := LineEnd(p).value;
    assert p == p[..i] + CRLF + p[i + 2..];
    assert p + d == p[..i] + CRLF + (p[i + 2..] + d);
    LineEndOf(p[..i], p[i + 2..] + d);
  }

  /** n empty lines. */
  function Blanks(n: nat): string {
    if n == 0 then "" else CRLF + Blanks(n - 1)
  }

  /** Each line with the CRLF that ends it. */
  function EncodeLines(lines: seq<string>): string {
    if lines == [] then "" else lines[0] + CRLF + EncodeLines(lines[1..])
  }

  function Concat(pieces: seq<string>): string {
    if pieces == [] then "" else pieces[0] + Concat(pieces[1..])
  }

  lemma {:induction false} ConcatAppend(a: seq<string>, b: seq<string>)
    ensures Concat(a + b) == Concat(a) + Concat(b)
  {
    if a == [] {
      assert a + b == b;
    } else {
      ConcatAppend(a[1..], b);
      var c := a + b;
      assert c[0] == a[0] && c[1..] == a[1..] + b;
      calc {
        Concat(c);
        a[0] + (Concat(a[1..]) + Concat(b));
        (a[0] + Concat(a[1..])) + Concat(b);
      }
    }
  }
}
