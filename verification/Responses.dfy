/** What a worker makes of a backend's response before sending it: header lines are
    inserted into the text, and the client connection is kept alive or not. */
module Responses {
  import opened Options
  import opened Bytes
  import opened HttpSyntax
  import opened OneShot

  const CLOSE_LINE: string := "\r\nConnection: close"

  /** The code takes the inserted line to be two characters longer than it is. */
  const ASSUMED_LENGTH: nat := 21

  predicate Contains(s: string, pat: string) {
    Find(s, pat, 0).Some?
  }

  predicate HasConnection(head: string) {
    Contains(head, "\r\nConnection:") || Contains(head, "\r\nconnection:")
  }

  /** The header lines that are not there yet, each behind the CRLF that ends the line
      before. */
  function Extra(head: string, headers: seq<(string, string)>): string {
    if headers == [] then ""
    else
      var (name, value) := headers[|headers| - 1];
      Extra(head, headers[..|headers| - 1]) +
      if Contains(head, "\r\n" + name + ":") then "" else "\r\n" + name + ": " + value
  }

  function Inserted(s: string, at: nat, text: string): string
    requires at <= |s|
  {
    s[..at] + text + s[at..]
  }

  /** The response as sent; `headers` are those that the filters add, in the order in which
      the map is walked. */
  function Rewritten(answer: string, headers: seq<(string, string)>): string {
    match Find(answer, CRLFCRLF, 0)
    case None => answer
    case Some(h) =>
      if HasConnection(answer[..h + 2]) then Inserted(answer, h, Extra(answer[..h], headers))
      else
        var out, end := Inserted(answer, h, CLOSE_LINE), h + ASSUMED_LENGTH;
        Inserted(out, end, Extra(out[..end], headers))
  }

  // ---- where the body begins afterwards ----

  /** What follows the first empty line. */
  function BodyAfter(s: string): Option<string> {
    match Find(s, CRLFCRLF, 0)
    case None => None
    case Some(h) => Some(s[h + 4..])
  }

  /** Lines without carriage returns, none empty, each behind a CRLF. */
  function Behind(lines: seq<string>): string {
    if lines == [] then "" else Behind(lines[..|lines| - 1]) + "\r\n" + lines[|lines| - 1]
  }

  predicate CleanHeaders(headers: seq<(string, string)>) {
    forall i :: 0 <= i < |headers| ==> NoCR(headers[i].0) && NoCR(headers[i].1)
  }

  function ExtraLines(head: string, headers: seq<(string, string)>): seq<string> {
    if headers == [] then []
    else
      var (name, value) := headers[|headers| - 1];
      ExtraLines(head, headers[..|headers| - 1]) +
      if Contains(head, "\r\n" + name + ":") then [] else [name + ": " + value]
  }

  lemma BehindOneMore(lines: seq<string>, line: string)
    ensures Behind(lines + [line]) == Behind(lines) + "\r\n" + line
  {
    assert (lines + [line])[..|lines|] == lines;
  }

  lemma {:induction false} ExtraIsLines(head: string, headers: seq<(string, string)>)
    requires CleanHeaders(headers)
    ensures Extra(head, headers) == Behind(ExtraLines(head, headers))
    ensures AreLines(ExtraLines(head, headers))
    decreases |headers|
  {
    hide Contains, Behind, AreLines;
    if headers == [] {
      NoLines();
    } else {
      var n := |headers| - 1;
      var (name, value) := headers[n];
      ExtraIsLines(head, headers[..n]);
      var before := ExtraLines(head, headers[..n]);
      if Contains(head, "\r\n" + name + ":") {
        assert before + [] == before && Extra(head, headers[..n]) + "" == Extra(head, headers[..n]);
      } else {
        OneMoreLine(before, name, value);
      }
    }
  }

  lemma NoLines()
    ensures Behind([]) == "" && AreLines([])
  {
  }

  lemma OneMoreLine(before: seq<string>, name: string, value: string)
    requires AreLines(before) && NoCR(name) && NoCR(value)
    ensures Behind(before) + ("\r\n" + name + ": " + value) == Behind(before + [name + ": " + value])
    ensures AreLines(before + [name + ": " + value])
  {
    var line := name + ": " + value;
    BehindOneMore(before, line);
    assert "\r\n" + name + ": " + value == "\r\n" + line;
    assert Behind(before) + ("\r\n" + line) == Behind(before) + "\r\n" + line;
  }

  lemma EmptyAt(s: string, j: nat)
    ensures OccursAt(s, CRLFCRLF, j) <==>
              j + 4 <= |s| && s[j] == '\r' && s[j + 1] == '\n' && s[j + 2] == '\r' && s[j + 3] == '\n'
  {
    if j + 4 <= |s| {
      var w := s[j..j + 4];
      assert w[0] == s[j] && w[1] == s[j + 1] && w[2] == s[j + 2] && w[3] == s[j + 3];
    }
  }

  predicate FirstEmpty(s: string, h: nat) {
    OccursAt(s, CRLFCRLF, h) && forall j :: 0 <= j < h ==> !OccursAt(s, CRLFCRLF, j)
  }

  lemma FirstEmptyFound(s: string, h: nat)
    requires FirstEmpty(s, h)
    ensures Find(s, CRLFCRLF, 0) == Some(h)
  {
    FirstIs(s, CRLFCRLF, 0, h);
  }

  /** A clean line inserted before the empty line moves it, and nothing else. */
  lemma OneLineIn(s: string, h: nat, line: string)
    requires FirstEmpty(s, h) && IsLine(line)
    ensures var t := Inserted(s, h, "\r\n" + line);
            FirstEmpty(t, h + |line| + 2) && t[h + |line| + 6..] == s[h + 4..]
  {
    var t, n := Inserted(s, h, "\r\n" + line), h + |line| + 2;
    EmptyAt(s, h);
    LineInserted(s, h, line);
    EmptyAt(t, n);
    hide Inserted;
    forall j | 0 <= j < n
      ensures !OccursAt(t, CRLFCRLF, j)
    {
      EmptyAt(t, j);
      EmptyAt(s, j);
    }
  }

  lemma LineInserted(s: string, h: nat, line: string)
    requires h + 4 <= |s|
    ensures var t, n := Inserted(s, h, "\r\n" + line), h + |line| + 2;
            && |t| == |s| + |line| + 2 && t[h] == '\r' && t[h + 1] == '\n'
            && (forall j :: 0 <= j < h ==> t[j] == s[j])
            && (forall j :: h + 2 <= j < n ==> t[j] == line[j - h - 2])
            && t[n] == s[h] && t[n + 1] == s[h + 1] && t[n + 2] == s[h + 2] && t[n + 3] == s[h + 3]
            && t[n + 4..] == s[h + 4..]
  {
    var text := "\r\n" + line;
    assert Inserted(s, h, text) == s[..h] + (text + s[h..]);
    assert text[0] == '\r' && text[1] == '\n' && forall j :: 0 <= j < |line| ==> text[2 + j] == line[j];
  }

  lemma InsertedTwice(s: string, h: nat, a: string, b: string)
    requires h <= |s|
    ensures Inserted(Inserted(s, h, a), h + |a|, b) == Inserted(s, h, a + b)
  {
    var t := Inserted(s, h, a);
    assert t[..h + |a|] == s[..h] + a && t[h + |a|..] == s[h..];
    assert s[..h] + a + b + s[h..] == s[..h] + (a + b) + s[h..];
  }

  lemma {:induction false} LinesIn(s: string, h: nat, lines: seq<string>)
    requires FirstEmpty(s, h) && AreLines(lines)
    ensures var t := Inserted(s, h, Behind(lines));
            FirstEmpty(t, h + |Behind(lines)|) && t[h + |Behind(lines)| + 4..] == s[h + 4..]
    decreases |lines|
  {
    hide FirstEmpty;
    assert h <= |s| by { FirstEmptyInside(s, h); }
    if lines == [] {
      assert Inserted(s, h, "") == s;
    } else {
      var n := |lines| - 1;
      var before, line := Behind(lines[..n]), lines[n];
      LinesIn(s, h, lines[..n]);
      var t := Inserted(s, h, before);
      assert IsLine(line);
      OneLineIn(t, h + |before|, line);
      InsertedTwice(s, h, before, "\r\n" + line);
      assert before + ("\r\n" + line) == Behind(lines);
    }
  }

  lemma FirstEmptyInside(s: string, h: nat)
    requires FirstEmpty(s, h)
    ensures h + 4 <= |s|
  {
  }

  /** Lines put two characters too late stand behind the empty line: they are body. */
  lemma TooLate(s: string, h: nat, text: string)
    requires FirstEmpty(s, h) && "\r\n" <= text
    ensures var t := Inserted(s, h + 2, text); FirstEmpty(t, h) && t[h + 4..] == text[2..] + s[h + 2..]
  {
    var t := Inserted(s, h + 2, text);
    assert text[..2] == "\r\n" && text[0] == '\r' && text[1] == '\n';
    EmptyAt(s, h);
    EmptyAt(t, h);
    forall j | 0 <= j < h
      ensures !OccursAt(t, CRLFCRLF, j)
    {
      EmptyAt(t, j);
      EmptyAt(s, j);
    }
    assert t[h + 4..] == text[2..] + s[h + 2..];
  }

  predicate AllPresent(head: string, headers: seq<(string, string)>) {
    forall i :: 0 <= i < |headers| ==> Contains(head, "\r\n" + headers[i].0 + ":")
  }

  lemma {:induction false} ExtraEmptyIff(head: string, headers: seq<(string, string)>)
    ensures Extra(head, headers) == "" <==> AllPresent(head, headers)
    ensures Extra(head, headers) != "" ==> "\r\n" <= Extra(head, headers)
    decreases |headers|
  {
    hide Contains;
    if headers != [] {
      var n := |headers| - 1;
      ExtraEmptyIff(head, headers[..n]);
      assert AllPresent(head, headers) <==>
             AllPresent(head, headers[..n]) && Contains(head, "\r\n" + headers[n].0 + ":");
    }
  }

  /** The text after the close line has been inserted, up to where the code takes the
      header to end. */
  function SearchedHead(answer: string, h: nat): string
    requires h + 4 <= |answer|
  {
    Inserted(answer, h, CLOSE_LINE)[..h + ASSUMED_LENGTH]
  }

  /** The body that the client sees is the backend's if and only if the response came with
      a Connection header or the filters have nothing to add. */
  lemma BodyKeptIff(answer: string, headers: seq<(string, string)>, h: nat)
    requires Find(answer, CRLFCRLF, 0) == Some(h) && CleanHeaders(headers)
    ensures BodyAfter(Rewritten(answer, headers)) == BodyAfter(answer)
       <==> HasConnection(answer[..h + 2]) || AllPresent(SearchedHead(answer, h), headers)
  {
    hide Find, Extra, AllPresent, HasConnection, FirstEmpty, BodyAfter;
    assert FirstEmpty(answer, h) by { FoundFirst(answer, h); }
    if HasConnection(answer[..h + 2]) {
      BodyBehindLines(answer, h, headers);
    } else {
      ExtraEmptyIff(SearchedHead(answer, h), headers);
      BodyBehindClose(answer, h, Extra(SearchedHead(answer, h), headers));
    }
  }

  lemma FoundFirst(s: string, h: nat)
    requires Find(s, CRLFCRLF, 0) == Some(h)
    ensures FirstEmpty(s, h) && h + 4 <= |s| && BodyAfter(s) == Some(s[h + 4..])
  {
    FoundOnly(s, CRLFCRLF, h);
    hide Find, OccursAt;
  }

  lemma FoundOnly(s: string, pat: string, h: nat)
    requires Find(s, pat, 0) == Some(h)
    ensures OccursAt(s, pat, h) && h + |pat| <= |s| && forall j :: 0 <= j < h ==> !OccursAt(s, pat, j)
  {
  }

  lemma BodyBehindLines(answer: string, h: nat, headers: seq<(string, string)>)
    requires Find(answer, CRLFCRLF, 0) == Some(h) && CleanHeaders(headers)
    ensures BodyAfter(Inserted(answer, h, Extra(answer[..h], headers))) == BodyAfter(answer)
  {
    hide Find, Extra, Behind, FirstEmpty;
    FoundFirst(answer, h);
    var lines := ExtraLines(answer[..h], headers);
    ExtraIsLines(answer[..h], headers);
    LinesIn(answer, h, lines);
    FirstEmptyFound(Inserted(answer, h, Behind(lines)), h + |Behind(lines)|);
  }

  /** Behind the close line nothing, or something two characters too late. */
  lemma BodyBehindClose(answer: string, h: nat, extra: string)
    requires Find(answer, CRLFCRLF, 0) == Some(h) && (extra != "" ==> "\r\n" <= extra)
    ensures var t := Inserted(Inserted(answer, h, CLOSE_LINE), h + ASSUMED_LENGTH, extra);
            BodyAfter(t) == BodyAfter(answer) <==> extra == ""
  {
    hide Find, FirstEmpty;
    FoundFirst(answer, h);
    CloseLineIn(answer, h);
    var out, end := Inserted(answer, h, CLOSE_LINE), h + |CLOSE_LINE|;
    var t := Inserted(out, end + 2, extra);
    if extra == "" {
      assert t == out;
      FirstEmptyFound(out, end);
    } else {
      TooLate(out, end, extra);
      FirstEmptyFound(t, end);
      assert |extra[2..] + out[end + 2..]| > |answer[h + 4..]|;
    }
  }

  lemma CloseLineIn(answer: string, h: nat)
    requires FirstEmpty(answer, h)
    ensures |CLOSE_LINE| + 2 == ASSUMED_LENGTH
    ensures var out, end := Inserted(answer, h, CLOSE_LINE), h + |CLOSE_LINE|;
            FirstEmpty(out, end) && out[end + 4..] == answer[h + 4..] && end + 4 <= |out|
  {
    var line := "Connection: close";
    assert CLOSE_LINE == "\r\n" + line && |line| == 17;
    assert IsLine(line);
    OneLineIn(answer, h, line);
  }

  // ---- keep-alive ----

  predicate AsksKeepAlive(req: HttpRequest) {
    || ("connection" in req.headers && MentionsIgnoringCase(req.headers["connection"], "keep-alive"))
    || req.version == "HTTP/1.1"
  }

  /** The code looks for this anywhere in the response, the body included. */
  predicate HasClose(out: string) {
    Contains(out, "\r\nConnection: close") || Contains(out, "\r\nconnection: close")
  }

  predicate KeptAlive(req: HttpRequest, out: string) {
    AsksKeepAlive(req) && !HasClose(out)
  }

  predicate AnyStarts(lines: seq<string>, word: string) {
    exists i :: 0 <= i < |lines| && word <= lines[i]
  }

  predicate CloseAmong(lines: seq<string>) {
    AnyStarts(lines, "Connection: close") || AnyStarts(lines, "connection: close")
  }

  predicate ConnectionAmong(lines: seq<string>) {
    AnyStarts(lines, "Connection:") || AnyStarts(lines, "connection:")
  }

  /** A line ends here, and nothing or another line end follows. */
  predicate BreakAt(s: string, h: nat) {
    h + 2 <= |s| && s[h] == '\r' && s[h + 1] == '\n' && (h + 2 < |s| ==> s[h + 2] == '\r')
  }

  lemma LineStartAt(s: string, word: string, j: nat)
    ensures OccursAt(s, "\r\n" + word, j) <==>
              j + 2 + |word| <= |s| && s[j] == '\r' && s[j + 1] == '\n' && s[j + 2..j + 2 + |word|] == word
  {
    var pat := "\r\n" + word;
    assert pat[0] == '\r' && pat[1] == '\n' && pat[2..] == word;
    if j + 2 + |word| <= |s| {
      var w := s[j..j + 2 + |word|];
      assert w[0] == s[j] && w[1] == s[j + 1] && w[2..] == s[j + 2..j + 2 + |word|];
      if w[0] == '\r' && w[1] == '\n' && w[2..] == word {
        assert w == pat;
      }
    }
  }

  /** A text with a line inserted, where lines end before and behind it. */
  predicate OneMore(s: string, h: nat, line: string, t: string) {
    && BreakAt(s, h) && |t| == |s| + |line| + 2 && t[..h] == s[..h] && t[h] == '\r' && t[h + 1] == '\n'
    && t[h + 2..h + 2 + |line|] == line && t[h + 2 + |line|..] == s[h..]
  }

  lemma OneMoreIs(s: string, h: nat, line: string)
    requires BreakAt(s, h)
    ensures OneMore(s, h, line, Inserted(s, h, "\r\n" + line))
    ensures BreakAt(Inserted(s, h, "\r\n" + line), h + 2 + |line|)
  {
    var t := Inserted(s, h, "\r\n" + line);
    assert t == s[..h] + "\r\n" + line + s[h..];
    assert t[h + 2 + |line|..] == s[h..];
    var n := h + 2 + |line|;
    assert t[n] == s[h] && t[n + 1] == s[h + 1] && (h + 2 < |s| ==> t[n + 2] == s[h + 2]);
  }

  /** Before the inserted line. */
  lemma StartBefore(s: string, h: nat, line: string, t: string, word: string, j: nat)
    requires OneMore(s, h, line, t) && NoCR(word) && j < h
    ensures OccursAt(t, "\r\n" + word, j) <==> OccursAt(s, "\r\n" + word, j)
  {
    var n := j + 2 + |word|;
    if n <= h {
      SliceOfPrefix(t, h, j, n);
      SliceOfPrefix(s, h, j, n);
    } else {
      NoneAcross(s, h, word, j);
      NoneAcross(t, h, word, j);
    }
  }

  /** No carriage return in a word: it does not reach over one. */
  lemma NoneAcross(s: string, h: nat, word: string, j: nat)
    requires NoCR(word) && j < h < j + 2 + |word| && h < |s| && s[h] == '\r'
    ensures !OccursAt(s, "\r\n" + word, j)
  {
    LineStartAt(s, word, j);
    if j + 2 + |word| <= |s| && h != j + 1 {
      assert s[j + 2..j + 2 + |word|][h - j - 2] == s[h];
    }
  }

  /** At the inserted line. */
  lemma StartAt(s: string, h: nat, line: string, t: string, word: string)
    requires OneMore(s, h, line, t) && NoCR(word) && word != ""
    ensures OccursAt(t, "\r\n" + word, h) <==> word <= line
    ensures !OccursAt(s, "\r\n" + word, h)
  {
    LineStartAt(s, word, h);
    LineStartAt(t, word, h);
    if h + 2 + |word| <= |s| {
      assert s[h + 2..h + 2 + |word|][0] == s[h + 2];
    }
    var n := h + 2 + |line|;
    assert t[n] == t[n..][0] == '\r';
    if |word| <= |line| {
      assert t[h + 2..h + 2 + |word|] == line[..|word|];
    } else if h + 2 + |word| <= |t| {
      assert t[h + 2..h + 2 + |word|][|line|] == t[n];
    }
  }

  /** Inside and behind the inserted line. */
  lemma StartBehind(s: string, h: nat, line: string, t: string, word: string, j: nat)
    requires OneMore(s, h, line, t) && NoCR(line) && h < j
    ensures OccursAt(t, "\r\n" + word, j) <==>
              h + 2 + |line| <= j && OccursAt(s, "\r\n" + word, j - 2 - |line|)
  {
    var n := h + 2 + |line|;
    LineStartAt(t, word, j);
    if h + 2 <= j < n {
      assert t[j] == t[h + 2..n][j - h - 2] == line[j - h - 2];
    } else if n <= j {
      var pat, k := "\r\n" + word, j - n;
      if j + |pat| <= |t| {
        assert t[j..j + |pat|] == t[n..][k..k + |pat|] == s[h..][k..k + |pat|] == s[h + k..h + k + |pat|];
      }
    }
  }

  lemma ContainsAt(s: string, pat: string, j: nat)
    requires OccursAt(s, pat, j)
    ensures Contains(s, pat)
  {
    FirstOccurrence(s, pat, j);
  }

  lemma FoundSomewhere(s: string, pat: string) returns (j: nat)
    requires Contains(s, pat)
    ensures OccursAt(s, pat, j)
  {
    j := Find(s, pat, 0).value;
  }

  /** After a line has been inserted a line starts with the word if one did before, or the
      new one does. */
  lemma StartsWithOneMore(s: string, h: nat, line: string, t: string, word: string)
    requires OneMore(s, h, line, t) && NoCR(line) && NoCR(word) && word != ""
    ensures Contains(t, "\r\n" + word) <==> Contains(s, "\r\n" + word) || word <= line
  {
    hide Contains, OccursAt, OneMore, NoCR;
    var pat := "\r\n" + word;
    StartAt(s, h, line, t, word);
    if word <= line {
      ContainsAt(t, pat, h);
    }
    if Contains(s, pat) {
      var j := FoundSomewhere(s, pat);
      if j < h {
        StartBefore(s, h, line, t, word, j);
        ContainsAt(t, pat, j);
      } else {
        StartBehind(s, h, line, t, word, j + 2 + |line|);
        ContainsAt(t, pat, j + 2 + |line|);
      }
    }
    if Contains(t, pat) {
      var j := FoundSomewhere(t, pat);
      if j < h {
        StartBefore(s, h, line, t, word, j);
        ContainsAt(s, pat, j);
      } else if j > h {
        StartBehind(s, h, line, t, word, j);
        ContainsAt(s, pat, j - 2 - |line|);
      }
    }
  }

  lemma AnyStartsOneMore(lines: seq<string>, line: string, word: string)
    ensures AnyStarts(lines + [line], word) <==> AnyStarts(lines, word) || word <= line
  {
    var longer := lines + [line];
    assert longer[|lines|] == line;
    assert forall i :: 0 <= i < |lines| ==> longer[i] == lines[i];
  }

  lemma StartsStep(s: string, h: nat, before: string, line: string, word: string)
    requires h <= |s| && BreakAt(Inserted(s, h, before), h + |before|)
    requires NoCR(line) && NoCR(word) && word != ""
    ensures var t, u := Inserted(s, h, before), Inserted(s, h, before + ("\r\n" + line));
            && BreakAt(u, h + |before + ("\r\n" + line)|)
            && (Contains(u, "\r\n" + word) <==> Contains(t, "\r\n" + word) || word <= line)
  {
    var t := Inserted(s, h, before);
    assert h + |before| <= |t|;
    hide BreakAt, Contains, NoCR, Inserted;
    OneMoreIs(t, h + |before|, line);
    StartsWithOneMore(t, h + |before|, line, Inserted(t, h + |before|, "\r\n" + line), word);
    InsertedTwice(s, h, before, "\r\n" + line);
  }

  lemma BehindLast(lines: seq<string>)
    requires lines != []
    ensures Behind(lines) == Behind(lines[..|lines| - 1]) + ("\r\n" + lines[|lines| - 1])
  {
    Regrouped(Behind(lines[..|lines| - 1]), "\r\n", lines[|lines| - 1]);
  }

  lemma Regrouped(a: string, b: string, c: string)
    ensures a + b + c == a + (b + c)
  {
  }

  lemma LastOff(lines: seq<string>)
    requires lines != [] && AreLines(lines)
    ensures var n := |lines| - 1; lines == lines[..n] + [lines[n]] && AreLines(lines[..n]) && NoCR(lines[n])
  {
    assert IsLine(lines[|lines| - 1]);
  }

  /** And so for any number of lines. */
  lemma {:induction false} StartsAmongLines(s: string, h: nat, lines: seq<string>, word: string)
    requires h <= |s| && BreakAt(s, h) && AreLines(lines) && NoCR(word) && word != ""
    ensures var t := Inserted(s, h, Behind(lines));
            && BreakAt(t, h + |Behind(lines)|)
            && (Contains(t, "\r\n" + word) <==> Contains(s, "\r\n" + word) || AnyStarts(lines, word))
    decreases |lines|
  {
    if lines == [] {
      assert Inserted(s, h, "") == s;
    } else {
      hide BreakAt, Contains, AnyStarts, NoCR, AreLines, Inserted, Behind;
      var n := |lines| - 1;
      BehindLast(lines);
      LastOff(lines);
      StartsAmongLines(s, h, lines[..n], word);
      StartsStep(s, h, Behind(lines[..n]), lines[n], word);
      AnyStartsOneMore(lines[..n], lines[n], word);
    }
  }

  lemma CloseWords()
    ensures NoCR("Connection: close") && NoCR("connection: close") && NoCR("Connection:") && NoCR("connection:")
    ensures "\r\n" + "Connection: close" == "\r\nConnection: close"
    ensures "\r\n" + "connection: close" == "\r\nconnection: close"
    ensures "\r\n" + "Connection:" == "\r\nConnection:" && "\r\n" + "connection:" == "\r\nconnection:"
  {
  }

  lemma CloseAfterLines(s: string, h: nat, lines: seq<string>)
    requires h <= |s| && BreakAt(s, h) && AreLines(lines)
    ensures HasClose(Inserted(s, h, Behind(lines))) <==> HasClose(s) || CloseAmong(lines)
    ensures HasConnection(Inserted(s, h, Behind(lines))) <==> HasConnection(s) || ConnectionAmong(lines)
  {
    CloseWords();
    hide BreakAt, AreLines, Contains, AnyStarts, Behind;
    StartsAmongLines(s, h, lines, "Connection: close");
    StartsAmongLines(s, h, lines, "connection: close");
    StartsAmongLines(s, h, lines, "Connection:");
    StartsAmongLines(s, h, lines, "connection:");
  }

  /** The client connection is not kept when the backend's response has a header end and no
      Connection header of its own. */
  lemma NotKeptWithoutConnection(req: HttpRequest, answer: string, headers: seq<(string, string)>, h: nat)
    requires Find(answer, CRLFCRLF, 0) == Some(h) && !HasConnection(answer[..h + 2])
    ensures !KeptAlive(req, Rewritten(answer, headers))
  {
    hide Extra, AsksKeepAlive, HasConnection;
    CloseLineIn(answer, h);
    var out, end := Inserted(answer, h, CLOSE_LINE), h + ASSUMED_LENGTH;
    var sent := Rewritten(answer, headers);
    assert sent[..end] == out[..end];
    SliceOfPrefix(sent, end, h, h + |CLOSE_LINE|);
    SliceOfPrefix(out, end, h, h + |CLOSE_LINE|);
    assert out[h..h + |CLOSE_LINE|] == CLOSE_LINE;
    FirstOccurrence(sent, CLOSE_LINE, h);
  }

  /** What the backend and the filters say leaves the client connection open. */
  predicate LeftOpen(answer: string, headers: seq<(string, string)>) {
    && !HasClose(answer)
    && match Find(answer, CRLFCRLF, 0)
       case None => true
       case Some(h) => HasConnection(answer[..h + 2]) && !CloseAmong(ExtraLines(answer[..h], headers))
  }

  /** The client connection is kept if and only if the request is HTTP/1.1 or mentions
      keep-alive, and neither the backend nor the filters close it. That the request
      mentions close plays no part. */
  lemma KeptIff(req: HttpRequest, answer: string, headers: seq<(string, string)>)
    requires CleanHeaders(headers)
    ensures KeptAlive(req, Rewritten(answer, headers)) <==>
              && (req.version == "HTTP/1.1" ||
                  ("connection" in req.headers && MentionsIgnoringCase(req.headers["connection"], "keep-alive")))
              && LeftOpen(answer, headers)
  {
    hide MentionsIgnoringCase;
    hide HasClose, HasConnection, CloseAmong, Extra, CleanHeaders;
    var found := Find(answer, CRLFCRLF, 0);
    if found.Some? {
      var h := found.value;
      if HasConnection(answer[..h + 2]) {
        ExtraIsLines(answer[..h], headers);
        EmptyAt(answer, h);
        CloseAfterLines(answer, h, ExtraLines(answer[..h], headers));
      } else {
        NotKeptWithoutConnection(req, answer, headers, h);
      }
    }
  }

  // ---- the filters' headers ----

  lemma {:induction false} LineAmongExtra(head: string, headers: seq<(string, string)>, i: nat)
    requires i < |headers| && !Contains(head, "\r\n" + headers[i].0 + ":")
    ensures headers[i].0 + ": " + headers[i].1 in ExtraLines(head, headers)
    decreases |headers|
  {
    hide Contains;
    var n := |headers| - 1;
    if i < n {
      LineAmongExtra(head, headers[..n], i);
    }
  }

  lemma StartsItself(lines: seq<string>, line: string)
    requires line in lines
    ensures AnyStarts(lines, line)
  {
  }

  lemma CutBeforeEnd(answer: string, h: nat, text: string)
    requires OccursAt(answer, CRLFCRLF, h)
    ensures BreakAt(answer[..h + 2], h) && h + |text| + 2 <= |Inserted(answer, h, text)|
    ensures Inserted(answer, h, text)[..h + |text| + 2] == Inserted(answer[..h + 2], h, text)
  {
    EmptyAt(answer, h);
    var short := answer[..h + 2];
    assert short[..h] == answer[..h] && answer[h..][..2] == short[h..];
    assert Inserted(answer, h, text) == answer[..h] + text + answer[h..];
  }

  /** A header that a filter adds and the response did not have stands in the head of what
      is sent, under its name and with its value, when the response came with a Connection
      header. */
  lemma FilterHeadersArrive(answer: string, headers: seq<(string, string)>, h: nat, i: nat)
    requires Find(answer, CRLFCRLF, 0) == Some(h) && CleanHeaders(headers) && HasConnection(answer[..h + 2])
    requires i < |headers| && !Contains(answer[..h], "\r\n" + headers[i].0 + ":")
    ensures var sent := Rewritten(answer, headers);
            var end := Find(sent, CRLFCRLF, 0);
            end.Some? && Contains(sent[..end.value + 2], "\r\n" + (headers[i].0 + ": " + headers[i].1))
  {
    hide Find, Extra, Behind, FirstEmpty, Contains, HasConnection, AnyStarts, Inserted, AreLines;
    var lines, line := ExtraLines(answer[..h], headers), headers[i].0 + ": " + headers[i].1;
    FoundFirst(answer, h);
    ExtraIsLines(answer[..h], headers);
    LinesIn(answer, h, lines);
    FirstEmptyFound(Inserted(answer, h, Behind(lines)), h + |Behind(lines)|);
    FoundOnly(answer, CRLFCRLF, h);
    CutBeforeEnd(answer, h, Behind(lines));
    LineAmongExtra(answer[..h], headers, i);
    StartsItself(lines, line);
    assert NoCR(line);
    StartsAmongLines(answer[..h + 2], h, lines, line);
  }

  // ---- a response without a body, given by its lines ----

  function Response(status: string, lines: seq<string>): string {
    Inserted(status + CRLFCRLF, |status|, Behind(lines))
  }

  lemma NothingAfterStatus(status: string, end: string, word: string)
    requires NoCR(status) && NoCR(word) && word != "" && (end == CRLF || end == CRLFCRLF)
    ensures !Contains(status + end, "\r\n" + word)
  {
    var s, pat := status + end, "\r\n" + word;
    forall j: nat
      ensures !OccursAt(s, pat, j)
    {
      LineStartAt(s, word, j);
      if j + 2 + |word| <= |s| {
        assert s[j + 2..j + 2 + |word|][0] == s[j + 2];
        assert j < |status| ==> s[j] == status[j];
      }
    }
  }

  lemma StatusFirst(status: string)
    requires NoCR(status)
    ensures FirstEmpty(status + CRLFCRLF, |status|)
  {
    var s, h := status + CRLFCRLF, |status|;
    assert forall j :: 0 <= j < h ==> s[j] == status[j];
    forall j | 0 <= j < h
      ensures !OccursAt(s, CRLFCRLF, j)
    {
      EmptyAt(s, j);
    }
    EmptyAt(s, h);
  }

  lemma ResponseParts(status: string, lines: seq<string>)
    requires NoCR(status) && AreLines(lines)
    ensures var h := |status| + |Behind(lines)|;
            && Find(Response(status, lines), CRLFCRLF, 0) == Some(h)
            && Response(status, lines)[..h + 2] == Inserted(status + CRLF, |status|, Behind(lines))
  {
    var s, h := status + CRLFCRLF, |status|;
    StatusFirst(status);
    hide Behind, AreLines, Find, FirstEmpty;
    LinesIn(s, h, lines);
    FirstEmptyFound(Response(status, lines), h + |Behind(lines)|);
    CutAfterLines(status, Behind(lines));
  }

  lemma CutAfterLines(status: string, text: string)
    ensures var n := |status| + |text| + 2;
            n <= |Inserted(status + CRLFCRLF, |status|, text)| &&
            Inserted(status + CRLFCRLF, |status|, text)[..n] == Inserted(status + CRLF, |status|, text)
  {
    var long, short := status + CRLFCRLF, status + CRLF;
    assert long[..|status|] == status && short[..|status|] == status;
    assert long[|status|..] == CRLFCRLF && short[|status|..] == CRLF;
    assert CRLFCRLF == CRLF + CRLF;
    assert status + text + (CRLF + CRLF) == (status + text + CRLF) + CRLF;
  }

  lemma ResponseSays(status: string, lines: seq<string>, h: nat)
    requires NoCR(status) && AreLines(lines) && h == |status| + |Behind(lines)| && h + 2 <= |Response(status, lines)|
    requires Response(status, lines)[..h + 2] == Inserted(status + CRLF, |status|, Behind(lines))
    ensures HasClose(Response(status, lines)) <==> CloseAmong(lines)
    ensures HasConnection(Response(status, lines)[..h + 2]) <==> ConnectionAmong(lines)
  {
    CloseWords();
    NothingAfterStatus(status, CRLFCRLF, "Connection: close");
    NothingAfterStatus(status, CRLFCRLF, "connection: close");
    NothingAfterStatus(status, CRLF, "Connection:");
    NothingAfterStatus(status, CRLF, "connection:");
    assert BreakAt(status + CRLFCRLF, |status|) && BreakAt(status + CRLF, |status|);
    hide BreakAt, AreLines, Contains, AnyStarts, Behind, Inserted, CloseAmong, ConnectionAmong;
    CloseAfterLines(status + CRLFCRLF, |status|, lines);
    CloseAfterLines(status + CRLF, |status|, lines);
  }

  /** A request that asks to close, on HTTP/1.1 or mentioning keep-alive as well, is kept
      open by every response with a Connection line that is not a close line. */
  lemma CloseNotHeard(req: HttpRequest, status: string, lines: seq<string>)
    requires NoCR(status) && AreLines(lines)
    ensures KeptAlive(req, Rewritten(Response(status, lines), [])) <==>
              AsksKeepAlive(req) && ConnectionAmong(lines) && !CloseAmong(lines)
  {
    var answer, h := Response(status, lines), |status| + |Behind(lines)|;
    ResponseParts(status, lines);
    FoundFirst(answer, h);
    ResponseSays(status, lines, h);
    assert ExtraLines(answer[..h], []) == [] && !CloseAmong([]);
    hide AsksKeepAlive, HasClose, HasConnection, CloseAmong, ConnectionAmong, Response, Rewritten;
    KeptIff(req, answer, []);
  }

  lemma KeepAliveLine()
    ensures var lines := ["Connection: keep-alive"]; AreLines(lines) && ConnectionAmong(lines) && !CloseAmong(lines)
  {
    var line := "Connection: keep-alive";
    assert "Connection:" <= line;
    assert "Connection: close"[12] == 'c' && line[12] == 'k';
    assert line[0] == 'C' && "connection: close"[0] == 'c';
    assert IsLine(line);
    assert [line][0] == line;
  }

  /** Any way of asking to close, in any letter case and among other words. */
  lemma CloseNotHeardInput(req: HttpRequest, status: string)
    requires "connection" in req.headers && MentionsIgnoringCase(req.headers["connection"], "close")
    requires req.version == "HTTP/1.1" || MentionsIgnoringCase(req.headers["connection"], "keep-alive")
    requires NoCR(status)
    ensures KeptAlive(req, Rewritten(Response(status, ["Connection: keep-alive"]), []))
  {
    assert AsksKeepAlive(req);
    hide *;
    KeepAliveLine();
    CloseNotHeard(req, status, ["Connection: keep-alive"]);
  }

  // ---- the code ----

  method CollectExtra(head: string, headers: seq<(string, string)>) returns (extra: string)
    ensures extra == Extra(head, headers)
  {
    hide Contains;
    extra := "";
    for i := 0 to |headers|
      invariant extra == Extra(head, headers[..i])
    {
      assert headers[..i + 1][..i] == headers[..i];
      var tag := "\r\n" + headers[i].0 + ":";
      if !Contains(head, tag) {
        extra := extra + ("\r\n" + headers[i].0 + ": " + headers[i].1);
      }
    }
    assert headers[..|headers|] == headers;
  }

  method RewriteResponse(answer: string, headers: seq<(string, string)>) returns (out: string)
    ensures out == Rewritten(answer, headers)
  {
    hide Extra, HasConnection;
    out := answer;
    var headerEnd := Find(out, CRLFCRLF, 0);
    if headerEnd.None? {
      return;
    }
    var end := headerEnd.value;
    if !HasConnection(out[..end + 2]) {
      CloseLineIn(out, end);
      out := Inserted(out, end, CLOSE_LINE);
      end := end + ASSUMED_LENGTH;
    }
    var extra := CollectExtra(out[..end], headers);
    assert extra == "" ==> Inserted(out, end, extra) == out;
    if extra != "" {
      out := Inserted(out, end, extra);
    }
  }

  method RequestKeepAlive(req: HttpRequest) returns (ka: bool)
    ensures ka <==> AsksKeepAlive(req)
  {
    if "connection" in req.headers {
      var found := FindWord(req.headers["connection"], "keep-alive");
      if found {
        return true;
      }
    }
    return req.version == "HTTP/1.1";
  }
}
