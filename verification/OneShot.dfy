/** The worker parses every delivered message a second time, in one go. This module
    models that parser and proves when it agrees with the incremental one. */
module OneShot {
  import opened Options
  import opened Bytes
  import opened HttpSyntax

  // ---- the parser ----

  /** The line loop of `parse_http_request`, from byte `from` on. */
  function ScanLines(raw: string, from: nat, headerEnd: nat, req: HttpRequest): (bool, HttpRequest)
    decreases |raw| - from
  {
    if from >= headerEnd then (true, req) else
    match Find(raw, CRLF, from)
    case None => (true, req)
    case Some(end) =>
      if end > headerEnd then (true, req) else
      var line := raw[from..end];
      if line == "" then ScanLines(raw, end + 2, headerEnd, req)
      else if req.method_ == "" then
        var (ok, req') := ParseRequestLine(line, req);
        if ok then ScanLines(raw, end + 2, headerEnd, req') else (false, req')
      else ScanLines(raw, end + 2, headerEnd, req.(headers := AddHeader(req.headers, line)))
  }

  function ParseOnce(raw: string): Option<HttpRequest> {
    match Find(raw, CRLFCRLF, 0)
    case None => None
    case Some(headerEnd) =>
      var (ok, req) := ScanLines(raw, 0, headerEnd, EmptyRequest.(body := raw[headerEnd + 4..]));
      if ok && req.method_ != "" && req.path != "" && req.version != "" then Some(req) else None
  }

  method ParseHttpRequest(raw: string) returns (r: Option<HttpRequest>)
    ensures r == ParseOnce(raw)
  {
    hide ParseRequestLine, AddHeader;
    var headerEnd := Find(raw, CRLFCRLF, 0);
    if headerEnd.None? {
      return None;
    }
    var req := EmptyRequest.(body := raw[headerEnd.value + 4..]);
    ghost var start := req;
    var lineStart := 0;
    while lineStart < headerEnd.value
      invariant ScanLines(raw, lineStart, headerEnd.value, req) == ScanLines(raw, 0, headerEnd.value, start)
      decreases |raw| - lineStart
    {
      var lineEnd := Find(raw, CRLF, lineStart);
      if lineEnd.None? || lineEnd.value > headerEnd.value {
        break;
      }
      var line := raw[lineStart..lineEnd.value];
      if line != "" {
        if req.method_ == "" {
          var parsed := ParseRequestLine(line, req);
          req := parsed.1;
          if !parsed.0 {
            return None;
          }
        } else {
          var headers := StoreHeader(req.headers, line);
          req := req.(headers := headers);
        }
      }
      lineStart := lineEnd.value + 2;
    }
    r := if req.method_ != "" && req.path != "" && req.version != "" then Some(req) else None;
  }

  // ---- header blocks ----

  function AddLines(h: HeaderMap, lines: seq<string>): HeaderMap
    decreases |lines|
  {
    if lines == [] then h else AddLines(AddHeader(h, lines[0]), lines[1..])
  }

  predicate IsLine(line: string) {
    line != "" && NoCR(line)
  }

  predicate AreLines(lines: seq<string>) {
    forall i :: 0 <= i < |lines| ==> IsLine(lines[i])
  }

  lemma OccursShift(a: string, s: string, pat: string, j: nat)
    ensures OccursAt(a + s, pat, |a| + j) == OccursAt(s, pat, j)
  {
    if j + |pat| <= |s| {
      assert (a + s)[|a| + j..|a| + j + |pat|] == s[j..j + |pat|];
    }
  }

  /** A search that finds nothing in front finds in `s` what it would find in `s` alone. */
  lemma FindSkips(a: string, s: string, pat: string)
    requires forall j :: 0 <= j < |a| ==> !OccursAt(a + s, pat, j)
    ensures Find(a + s, pat, 0) == match Find(s, pat, 0) case None => None case Some(i) => Some(|a| + i)
  {
    var f, g := Find(a + s, pat, 0), Find(s, pat, 0);
    if f.Some? {
      OccursShift(a, s, pat, f.value - |a|);
    }
    if g.Some? {
      OccursShift(a, s, pat, g.value);
    }
  }

  /** The empty line is found right behind the last of the lines, and nowhere earlier. */
  lemma {:induction false} HeadEnds(lines: seq<string>, tail: string)
    requires lines != [] && AreLines(lines)
    ensures |EncodeLines(lines)| >= 2
    ensures Find(EncodeLines(lines) + CRLF + tail, CRLFCRLF, 0) == Some(|EncodeLines(lines)| - 2)
    decreases |lines|
  {
    hide Find, OccursAt;
    var l, more := lines[0], EncodeLines(lines[1..]);
    assert IsLine(l);
    if lines[1..] == [] {
      assert EncodeLines(lines) + CRLF + tail == l + CRLFCRLF + tail;
      LastLine(l, tail);
    } else {
      assert AreLines(lines[1..]);
      HeadEnds(lines[1..], tail);
      assert IsLine(lines[1]) && lines[1..][0] == lines[1];
      assert more[0] == lines[1][0];
      hide EncodeLines, AreLines;
      assert l + CRLF + more + CRLF + tail == l + CRLF + (more + CRLF + tail);
      InnerLine(l, more + CRLF + tail);
    }
  }

  lemma LastLine(l: string, tail: string)
    requires IsLine(l)
    ensures Find(l + CRLFCRLF + tail, CRLFCRLF, 0) == Some(|l|)
  {
    var s := l + CRLFCRLF + tail;
    assert s == l + CRLF + (CRLF + tail);
    NoEarlier(l, s, |l|);
    assert s[|l|..|l| + 4] == CRLFCRLF;
    FirstIs(s, CRLFCRLF, 0, |l|);
  }

  lemma InnerLine(l: string, rest: string)
    requires NoCR(l) && rest != "" && rest[0] != '\r'
    ensures Find(l + CRLF + rest, CRLFCRLF, 0)
         == match Find(rest, CRLFCRLF, 0) case None => None case Some(i) => Some(|l| + 2 + i)
  {
    hide Find, OccursAt;
    NoEarlier(l, l + CRLF + rest, |l| + 2);
    FindSkips(l + CRLF, rest, CRLFCRLF);
  }

  lemma FirstIs(s: string, pat: string, from: nat, k: nat)
    requires from <= k && OccursAt(s, pat, k) && forall j :: from <= j < k ==> !OccursAt(s, pat, j)
    ensures Find(s, pat, from) == Some(k)
  {
    hide Find;
  }

  lemma NoEarlier(l: string, s: string, k: nat)
    requires NoCR(l) && l + CRLF <= s && k <= |l| + 2
    requires k == |l| + 2 ==> |s| > k && s[k] != '\r'
    requires k != |l| + 1
    ensures forall j :: 0 <= j < k ==> !OccursAt(s, CRLFCRLF, j)
  {
    forall j | 0 <= j < k
      ensures !OccursAt(s, CRLFCRLF, j)
    {
      if j + 4 <= |s| {
        assert s[j..j + 4][0] == s[j] && s[j..j + 4][2] == s[j + 2];
        assert CRLFCRLF[0] == '\r' && CRLFCRLF[2] == '\r';
        assert j < |l| ==> s[j] == l[j];
        assert s[|l| + 1] == '\n';
      }
    }
  }

  /** Scanning the header lines collects them all. */
  lemma {:induction false} ScanCollects(prefix: string, lines: seq<string>, tail: string, req: HttpRequest)
    requires AreLines(lines) && req.method_ != "" && |prefix| >= 2
    ensures ScanLines(prefix + EncodeLines(lines) + CRLF + tail, |prefix|,
                      |prefix| + |EncodeLines(lines)| - 2, req)
         == (true, req.(headers := AddLines(req.headers, lines)))
    decreases |lines|
  {
    hide AddHeader, Find;
    var raw := prefix + EncodeLines(lines) + CRLF + tail;
    var headerEnd := |prefix| + |EncodeLines(lines)| - 2;
    if lines != [] {
      var l, more := lines[0], EncodeLines(lines[1..]);
      var p := prefix + l + CRLF;
      assert IsLine(l) && AreLines(lines[1..]);
      assert raw == prefix + l + CRLF + (more + CRLF + tail);
      assert raw == p + more + CRLF + tail;
      LineFound(prefix, l, more + CRLF + tail);
      var req' := req.(headers := AddHeader(req.headers, l));
      ScanCollects(p, lines[1..], tail, req');
      assert ScanLines(raw, |prefix|, headerEnd, req) == ScanLines(raw, |p|, headerEnd, req');
    }
  }

  lemma LineFound(prefix: string, l: string, rest: string)
    requires NoCR(l)
    ensures var raw := prefix + l + CRLF + rest;
            && Find(raw, CRLF, |prefix|) == Some(|prefix| + |l|)
            && raw[|prefix|..|prefix| + |l|] == l
  {
    hide Find;
    var raw := prefix + l + CRLF + rest;
    var e := |prefix| + |l|;
    assert raw[|prefix|..e] == l && raw[e..e + 2] == CRLF;
    forall j | |prefix| <= j < e
      ensures raw[j] != '\r'
    {
      assert raw[j] == l[j - |prefix|];
    }
    FirstCrlf(raw, |prefix|, e);
  }

  lemma FirstCrlf(raw: string, from: nat, e: nat)
    requires from <= e && OccursAt(raw, CRLF, e) && forall j :: from <= j < e ==> raw[j] != '\r'
    ensures Find(raw, CRLF, from) == Some(e)
  {
    hide Find;
    forall j | from <= j < e
      ensures !OccursAt(raw, CRLF, j)
    {
      assert j + 2 <= |raw| ==> raw[j..j + 2][0] == raw[j];
    }
    FirstIs(raw, CRLF, from, e);
  }
}
