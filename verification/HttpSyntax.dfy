/** The lexical rules shared by the incremental and the one-shot request parser:
    request line, header line, Content-Length and chunk sizes. Each rule that the
    source computes with a loop is a method proved against its function. */
module HttpSyntax {
  import opened Options
  import opened Bytes

  type HeaderMap = map<string, string>

  datatype HttpRequest = HttpRequest(method_: string, path: string, version: string,
                                     headers: HeaderMap, body: string)

  const EmptyRequest := HttpRequest("", "", "", map[], "")

  // ---- letter case ----

  function LowerChar(c: char): char {
    if 'A' <= c <= 'Z' then (c as int + 32) as char else c
  }

  function Lower(s: string): (r: string)
    ensures |r| == |s|
    ensures forall i :: 0 <= i < |s| ==> r[i] == LowerChar(s[i])
  {
    seq(|s|, i requires 0 <= i < |s| => LowerChar(s[i]))
  }

  const UPPER := "ABCDEFGHIJKLMNOPQRSTUVWXYZ"
  const LOWER := "abcdefghijklmnopqrstuvwxyz"

  /** Equal, or the two cases of one letter. */
  predicate SameLetter(a: char, b: char) {
    a == b || exists k :: 0 <= k < 26 && ((a == UPPER[k] && b == LOWER[k]) || (a == LOWER[k] && b == UPPER[k]))
  }

  /** Equal up to letter case. */
  predicate SameText(s: string, t: string) {
    |s| == |t| && forall i :: 0 <= i < |s| ==> SameLetter(s[i], t[i])
  }

  predicate NoUpper(s: string) {
    forall i :: 0 <= i < |s| ==> s[i] !in UPPER
  }

  lemma Alphabet(k: nat)
    requires k < 26
    ensures UPPER[k] as int == 'A' as int + k && LOWER[k] as int == 'a' as int + k
  {
  }

  lemma UpperIff(c: char)
    ensures c in UPPER <==> 'A' <= c <= 'Z'
  {
    if 'A' <= c <= 'Z' {
      Alphabet(c as int - 'A' as int);
    } else if c in UPPER {
      var k :| 0 <= k < |UPPER| && UPPER[k] == c;
      Alphabet(k);
    }
  }

  /** Each capital becomes its small letter, and nothing else changes. */
  lemma LowerLetters(k: nat, c: char)
    requires k < 26
    ensures LowerChar(UPPER[k]) == LOWER[k] && LowerChar(LOWER[k]) == LOWER[k]
    ensures c !in UPPER ==> LowerChar(c) == c
  {
    Alphabet(k);
    UpperIff(c);
  }

  lemma LowerCharIff(a: char, b: char)
    ensures LowerChar(a) == LowerChar(b) <==> SameLetter(a, b)
  {
    hide SameLetter;
    if SameLetter(a, b) {
      SameLetterLowers(a, b);
    } else if LowerChar(a) == LowerChar(b) {
      LowersSameLetter(a, b);
    }
  }

  lemma SameLetterLowers(a: char, b: char)
    requires SameLetter(a, b)
    ensures LowerChar(a) == LowerChar(b)
  {
    if a != b {
      var k :| 0 <= k < 26 && ((a == UPPER[k] && b == LOWER[k]) || (a == LOWER[k] && b == UPPER[k]));
      LowerLetters(k, a);
    }
  }

  lemma LowersSameLetter(a: char, b: char)
    requires LowerChar(a) == LowerChar(b)
    ensures SameLetter(a, b)
  {
    if a != b {
      var c := if 'A' <= a <= 'Z' then a else b;
      Alphabet(c as int - 'A' as int);
    }
  }

  lemma LowerIff(s: string, t: string)
    ensures Lower(s) == Lower(t) <==> SameText(s, t)
  {
    hide LowerChar, SameLetter;
    forall i | 0 <= i < |s| && i < |t|
      ensures LowerChar(s[i]) == LowerChar(t[i]) <==> SameLetter(s[i], t[i])
    {
      LowerCharIff(s[i], t[i]);
    }
    if Lower(s) == Lower(t) {
      assert |s| == |Lower(s)| == |t|;
      assert forall i :: 0 <= i < |s| ==> Lower(s)[i] == Lower(t)[i];
    }
  }

  /** A text without capitals is the lower-case form of all its re-casings. */
  lemma LowerIs(s: string, key: string)
    requires NoUpper(key)
    ensures Lower(s) == key <==> SameText(s, key)
  {
    hide LowerChar, SameText;
    forall i | 0 <= i < |key|
      ensures LowerChar(key[i]) == key[i]
    {
      LowerLetters(0, key[i]);
    }
    assert Lower(key) == key;
    LowerIff(s, key);
  }

  method ToLower(s: string) returns (r: string)
    ensures r == Lower(s)
  {
    r := "";
    for i := 0 to |s|
      invariant |r| == i
      invariant forall j :: 0 <= j < i ==> r[j] == LowerChar(s[j])
    {
      r := r + [LowerChar(s[i])];
    }
  }

  method StrIEqual(a: string, b: string) returns (equal: bool)
    ensures equal <==> SameText(a, b)
  {
    hide SameText, LowerChar;
    LowerIff(a, b);
    if |a| != |b| {
      assert |Lower(a)| != |Lower(b)|;
      return false;
    }
    for i := 0 to |a|
      invariant forall j :: 0 <= j < i ==> LowerChar(a[j]) == LowerChar(b[j])
    {
      if LowerChar(a[i]) != LowerChar(b[i]) {
        assert Lower(a)[i] != Lower(b)[i];
        return false;
      }
    }
    return true;
  }

  predicate WordAt(v: string, word: string, i: nat) {
    i + |word| <= |v| && SameText(v[i..i + |word|], word)
  }

  /** Some window of `v` equals `word` up to letter case. */
  predicate MentionsIgnoringCase(v: string, word: string) {
    exists i :: 0 <= i <= |v| && WordAt(v, word, i)
  }

  // ---- request line ----

  /** The three fields that `parse_request_line` cuts at the first two blanks; on
      failure the source has already overwritten the fields when both blanks exist. */
  function ParseRequestLine(line: string, req: HttpRequest): (r: (bool, HttpRequest)) {
    var p1 := IndexFrom(line, ' ', 0);
    if p1 == |line| then (false, req) else
    var p2 := IndexFrom(line, ' ', p1 + 1);
    if p2 == |line| then (false, req) else
    var req' := req.(method_ := line[..p1], path := line[p1 + 1..p2], version := line[p2 + 1..]);
    (req'.method_ != "" && req'.path != "" && req'.version != "", req')
  }

  /** An accepted request line is method, blank, path, blank, version; neither method
      nor path holds a blank, and no part is empty. */
  lemma RequestLineParts(line: string, req: HttpRequest)
    requires ParseRequestLine(line, req).0
    ensures var r := ParseRequestLine(line, req).1;
            && line == r.method_ + " " + r.path + " " + r.version
            && ' ' !in r.method_ && ' ' !in r.path
            && r.method_ != "" && r.path != "" && r.version != ""
            && r.headers == req.headers && r.body == req.body
  {
    var p1 := IndexFrom(line, ' ', 0);
    var p2 := IndexFrom(line, ' ', p1 + 1);
    assert line == line[..p1] + [line[p1]] + line[p1 + 1..p2] + [line[p2]] + line[p2 + 1..];
  }

  /** Conversely every such line is accepted with exactly those parts. */
  lemma RequestLineOf(m: string, p: string, v: string, req: HttpRequest)
    requires m != "" && p != "" && v != "" && ' ' !in m && ' ' !in p
    ensures ParseRequestLine(m + " " + p + " " + v, req)
         == (true, req.(method_ := m, path := p, version := v))
  {
    var line := m + " " + p + " " + v;
    assert line[|m|] == ' ' && line[|m| + 1 + |p|] == ' ';
    assert forall j :: 0 <= j < |m| ==> line[j] == m[j];
    assert forall j :: |m| + 1 <= j < |m| + 1 + |p| ==> line[j] == p[j - |m| - 1];
    assert IndexFrom(line, ' ', 0) == |m|;
    assert IndexFrom(line, ' ', |m| + 1) == |m| + 1 + |p|;
    assert line[..|m|] == m && line[|m| + 1..|m| + 1 + |p|] == p && line[|m| + 2 + |p|..] == v;
  }

  // ---- header line ----

  predicate IsBlank(c: char) {
    c == ' ' || c == '\t'
  }

  function TrimLeft(s: string): string {
    if s != "" && IsBlank(s[0]) then TrimLeft(s[1..]) else s
  }

  /** A line without a colon leaves the headers alone; a repeated name overwrites. */
  function AddHeader(h: HeaderMap, line: string): HeaderMap {
    var colon := IndexFrom(line, ':', 0);
    if colon == |line| then h
    else h[Lower(line[..colon]) := TrimLeft(line[colon + 1..])]
  }

  method StoreHeader(h: HeaderMap, line: string) returns (h': HeaderMap)
    ensures h' == AddHeader(h, line)
  {
    var colon := IndexFrom(line, ':', 0);
    if colon == |line| {
      return h;
    }
    var key := ToLower(line[..colon]);
    var vs := colon + 1;
    while vs < |line| && IsBlank(line[vs])
      invariant colon + 1 <= vs <= |line|
      invariant TrimLeft(line[colon + 1..]) == TrimLeft(line[vs..])
    {
      assert line[vs..][1..] == line[vs + 1..];
      vs := vs + 1;
    }
    h' := h[key := line[vs..]];
  }

  predicate AllBlank(s: string) {
    forall i :: 0 <= i < |s| ==> IsBlank(s[i])
  }

  lemma {:induction false} TrimmedOf(lead: string, value: string)
    requires AllBlank(lead) && (value != "" ==> !IsBlank(value[0]))
    ensures TrimLeft(lead + value) == value
    decreases |lead|
  {
    if lead == "" {
      assert lead + value == value;
    } else {
      assert (lead + value)[1..] == lead[1..] + value;
      TrimmedOf(lead[1..], value);
    }
  }

  /** A field line, with any blanks after the colon, stores what follows them under the
      lower-case name; blanks at the end of the line are kept. */
  lemma HeaderLineOf(h: HeaderMap, name: string, lead: string, value: string)
    requires ':' !in name && AllBlank(lead) && (value != "" ==> !IsBlank(value[0]))
    ensures AddHeader(h, name + ":" + lead + value) == h[Lower(name) := value]
  {
    var line := name + ":" + lead + value;
    assert line[|name|] == ':' && forall j :: 0 <= j < |name| ==> line[j] == name[j];
    assert IndexFrom(line, ':', 0) == |name|;
    assert line[..|name|] == name && line[|name| + 1..] == lead + value;
    TrimmedOf(lead, value);
  }

  /** A line without a colon is passed over. */
  lemma NoColonNoHeader(h: HeaderMap, line: string)
    requires ':' !in line
    ensures AddHeader(h, line) == h
  {
    assert forall j :: 0 <= j < |line| ==> line[j] != ':';
  }

  /** So the name may be written in any letter case. */
  lemma HeaderNameAnyCase(h: HeaderMap, name: string, key: string, lead: string, value: string)
    requires ':' !in name && AllBlank(lead) && (value != "" ==> !IsBlank(value[0]))
    requires NoUpper(key) && SameText(name, key)
    ensures AddHeader(h, name + ":" + lead + value) == h[key := value]
  {
    hide AddHeader, SameText, NoUpper;
    HeaderLineOf(h, name, lead, value);
    LowerIs(name, key);
  }

  // ---- numbers as they are written ----

  const DIGITS := "0123456789abcdef"

  /** The text is n in the given base, in digits of either case, with any leading zeros. */
  predicate Writes(s: string, base: nat, n: nat)
    requires base == 10 || base == 16
    decreases |s|
  {
    if s == "" then n == 0
    else SameLetter(s[|s| - 1], DIGITS[n % base]) && Writes(s[..|s| - 1], base, n / base)
  }

  lemma DigitAt(d: nat)
    requires d < 16
    ensures DIGITS[d] as int == if d < 10 then '0' as int + d else 'a' as int + (d - 10)
  {
  }

  // ---- decimal Content-Length ----

  predicate IsDigit(c: char) {
    '0' <= c <= '9'
  }

  predicate AllDigits(s: string) {
    forall i :: 0 <= i < |s| ==> IsDigit(s[i])
  }

  function DecimalValue(s: string): nat
    requires AllDigits(s)
  {
    if s == "" then 0 else 10 * DecimalValue(s[..|s| - 1]) + (s[|s| - 1] as int - '0' as int)
  }

  lemma DecimalDigit(c: char, d: nat)
    requires d < 10
    ensures SameLetter(c, DIGITS[d]) <==> IsDigit(c) && c as int - '0' as int == d
  {
    DigitAt(d);
    LowerCharIff(c, DIGITS[d]);
  }

  /** The value of decimal digits is the number they write. */
  lemma {:induction false} DecimalWrites(s: string, n: nat)
    ensures Writes(s, 10, n) <==> AllDigits(s) && DecimalValue(s) == n
    decreases |s|
  {
    hide SameLetter, IsDigit;
    if s != "" {
      var k := |s| - 1;
      DecimalWrites(s[..k], n / 10);
      DecimalDigit(s[k], n % 10);
      assert AllDigits(s) <==> AllDigits(s[..k]) && IsDigit(s[k]);
      if IsDigit(s[k]) {
        DigitRange(s[k]);
      }
    }
  }

  lemma DigitRange(c: char)
    requires IsDigit(c)
    ensures 0 <= c as int - '0' as int < 10
  {
  }

  /** Blank space as the C library's isspace sees it. */
  predicate IsSpace(c: char) {
    c == ' ' || (9 as char) <= c <= (13 as char)
  }

  function SkipSpaces(s: string): string {
    if s != "" && IsSpace(s[0]) then SkipSpaces(s[1..]) else s
  }

  const INT_MAX: int := 2147483647

  /** `parse_int_safe`: strtol in base 10 over the whole text, result kept in 0..INT_MAX. */
  function ParseIntSafe(s: string): Option<nat> {
    var t := SkipSpaces(s);
    var negative := t != "" && t[0] == '-';
    var digits := if t != "" && (t[0] == '-' || t[0] == '+') then t[1..] else t;
    if digits == "" || !AllDigits(digits) then None else
    var v := DecimalValue(digits);
    if v > INT_MAX || (negative && v != 0) then None else Some(v)
  }

  /** The Content-Length grammar of section 8.6 of RFC 9110 (one or more digits) is
      accepted with its value as long as it fits an int. */
  lemma PlainDigitsParse(s: string)
    requires s != "" && AllDigits(s) && DecimalValue(s) <= INT_MAX
    ensures ParseIntSafe(s) == Some(DecimalValue(s))
  {
    assert IsDigit(s[0]);
  }

  const SPACES: seq<char> := [' ', '\t', '\n', 11 as char, 12 as char, '\r']

  predicate AllSpaces(s: string) {
    forall i :: 0 <= i < |s| ==> s[i] in SPACES
  }

  lemma SpaceIff(c: char)
    ensures IsSpace(c) <==> c in SPACES
  {
    assert SPACES[0] == ' ' && SPACES[1] == '\t' && SPACES[2] == '\n' && SPACES[5] == '\r';
    assert SPACES[3] == 11 as char && SPACES[4] == 12 as char;
  }

  lemma {:induction false} SpacesSkipped(spaces: string, t: string)
    requires AllSpaces(spaces) && (t != "" ==> !IsSpace(t[0]))
    ensures SkipSpaces(spaces + t) == t
    decreases |spaces|
  {
    hide IsSpace;
    if spaces == "" {
      assert spaces + t == t;
    } else {
      SpaceIff(spaces[0]);
      assert (spaces + t)[1..] == spaces[1..] + t;
      SpacesSkipped(spaces[1..], t);
    }
  }

  /** What `strtol` reads: blank space, a sign, digits and nothing else. Of these, negative
      numbers and those beyond an int are refused. */
  lemma ParseIntSafeOf(spaces: string, sign: string, digits: string, n: nat)
    requires AllSpaces(spaces) && sign in {"", "+", "-"} && digits != "" && Writes(digits, 10, n)
    ensures ParseIntSafe(spaces + (sign + digits)) ==
              if n > 0x7FFF_FFFF || (sign == "-" && n != 0) then None else Some(n)
  {
    hide Writes, DecimalValue, SkipSpaces;
    DecimalWrites(digits, n);
    var t := sign + digits;
    assert IsDigit(digits[0]);
    assert t[0] == if sign == "" then digits[0] else sign[0];
    assert sign != "" ==> t[1..] == digits;
    assert sign == "" ==> t == digits;
    SpacesSkipped(spaces, t);
  }

  lemma {:induction false} SkippedSpaces(s: string) returns (spaces: string)
    ensures AllSpaces(spaces) && s == spaces + SkipSpaces(s)
    decreases |s|
  {
    if s != "" && IsSpace(s[0]) {
      SpaceIff(s[0]);
      spaces := SkippedSpaces(s[1..]);
      spaces := [s[0]] + spaces;
    } else {
      spaces := "";
    }
  }

  /** And it reads nothing else. */
  lemma ParseIntSafeOnly(s: string) returns (spaces: string, sign: string, digits: string)
    requires ParseIntSafe(s).Some?
    ensures AllSpaces(spaces) && sign in {"", "+", "-"} && digits != "" && s == spaces + (sign + digits)
    ensures Writes(digits, 10, ParseIntSafe(s).value) && ParseIntSafe(s).value <= INT_MAX
  {
    hide Writes, DecimalValue, SkipSpaces, AllSpaces, AllDigits;
    spaces := SkippedSpaces(s);
    var t := SkipSpaces(s);
    sign, digits := SignAndDigits(t);
    DecimalWrites(digits, ParseIntSafe(s).value);
  }

  lemma SignAndDigits(t: string) returns (sign: string, digits: string)
    ensures sign in {"", "+", "-"} && t == sign + digits
    ensures digits == if t != "" && (t[0] == '-' || t[0] == '+') then t[1..] else t
  {
    sign := if t == "" || (t[0] != '-' && t[0] != '+') then "" else t[..1];
    digits := t[|sign|..];
    assert sign != "" ==> sign == "-" || sign == "+";
  }

  /** A blank behind the digits is more than the number: the whole text is rejected. */
  lemma PaddedDigitsRejected(s: string, trail: string)
    requires s != "" && AllDigits(s) && trail != "" && AllBlank(trail)
    ensures ParseIntSafe(s + trail) == None
  {
    var t := s + trail;
    assert IsDigit(t[0]) && t[0] == s[0];
    assert t[|s|] == trail[0] && !IsDigit(t[|s|]);
  }

  // ---- framing decided at the end of the headers ----

  predicate IsChunked(h: HeaderMap) {
    "transfer-encoding" in h && MentionsIgnoringCase(h["transfer-encoding"], "chunked")
  }

  /** Blanks behind a value never make or break a mention of `chunked`. */
  lemma ChunkedBeforeBlanks(v: string, trail: string)
    requires AllBlank(trail)
    ensures MentionsIgnoringCase(v + trail, "chunked") <==> MentionsIgnoringCase(v, "chunked")
  {
    var word, t := "chunked", v + trail;
    forall i: nat | i + 7 <= |t|
      ensures WordAt(t, word, i) <==> i + 7 <= |v| && WordAt(v, word, i)
    {
      if i + 7 <= |v| {
        assert t[i..i + 7] == v[i..i + 7];
      } else {
        assert t[i..i + 7][6] == trail[i + 6 - |v|];
        assert Lower(t[i..i + 7])[6] == LowerChar(trail[i + 6 - |v|]) != Lower(word)[6];
        LowerIff(t[i..i + 7], word);
      }
    }
    if MentionsIgnoringCase(v, word) {
      var i :| 0 <= i <= |v| && WordAt(v, word, i);
      assert WordAt(t, word, i);
    }
  }

  /** The value left in `content_length_`: -1 when absent or not a usable number. */
  function ContentLength(h: HeaderMap): int {
    if "content-length" !in h then -1 else
    match ParseIntSafe(h["content-length"])
    case None => -1
    case Some(n) => n
  }

  /** The window search used for header values. */
  method FindWord(v: string, word: string) returns (found: bool)
    ensures found <==> MentionsIgnoringCase(v, word)
  {
    var i := 0;
    while i + |word| <= |v|
      invariant 0 <= i <= |v| + 1
      invariant forall j :: 0 <= j < i ==> !WordAt(v, word, j)
    {
      found := StrIEqual(v[i..i + |word|], word);
      if found {
        assert WordAt(v, word, i);
        return;
      }
      i := i + 1;
    }
    return false;
  }

  method FindChunked(h: HeaderMap) returns (chunked: bool)
    ensures chunked <==> IsChunked(h)
  {
    chunked := false;
    if "transfer-encoding" in h {
      chunked := FindWord(h["transfer-encoding"], "chunked");
    }
  }

  // ---- hexadecimal chunk sizes ----

  function HexDigit(c: char): Option<nat> {
    if '0' <= c <= '9' then Some(c as int - '0' as int)
    else if 'a' <= c <= 'f' then Some(c as int - 'a' as int + 10)
    else if 'A' <= c <= 'F' then Some(c as int - 'A' as int + 10)
    else None
  }

  predicate AllHex(s: string) {
    forall i :: 0 <= i < |s| ==> HexDigit(s[i]).Some?
  }

  /** The number written by the digits, with no bound on its size. */
  function HexValue(s: string): nat
    requires AllHex(s)
  {
    if s == "" then 0 else 16 * HexValue(s[..|s| - 1]) + HexDigit(s[|s| - 1]).value
  }

  lemma HexDigitIs(c: char, d: nat)
    requires d < 16
    ensures HexDigit(c) == Some(d) <==> SameLetter(c, DIGITS[d])
  {
    DigitAt(d);
    LowerCharIff(c, DIGITS[d]);
  }

  lemma HexRange(c: char)
    ensures HexDigit(c).Some? ==> HexDigit(c).value < 16
  {
  }

  /** The value of hex digits, in either case, is the number they write. */
  lemma {:induction false} HexWrites(s: string, n: nat)
    ensures Writes(s, 16, n) <==> AllHex(s) && HexValue(s) == n
    decreases |s|
  {
    hide SameLetter, HexDigit;
    if s != "" {
      var k := |s| - 1;
      HexWrites(s[..k], n / 16);
      HexDigitIs(s[k], n % 16);
      HexRange(s[k]);
      assert AllHex(s) <==> AllHex(s[..k]) && HexDigit(s[k]).Some?;
    }
  }

  const SIZE_T: nat := 0x1_0000_0000_0000_0000

  /** The chunk size the source works with: the written number modulo 2^64. */
  function ChunkSize(s: string): Option<nat> {
    if s == "" || !AllHex(s) then None else Some(HexValue(s) % SIZE_T)
  }

  lemma ShiftWraps(v: nat, d: nat)
    ensures (16 * (v % SIZE_T) + d) % SIZE_T == (16 * v + d) % SIZE_T
  {
    var q := v / SIZE_T;
    assert v == SIZE_T * q + v % SIZE_T;
    assert 16 * v + d == (16 * (v % SIZE_T) + d) + SIZE_T * (16 * q);
  }

  /** The shift-and-or loop of `parse_hex` on a 64-bit accumulator. */
  method ParseHex(s: string) returns (r: Option<nat>)
    ensures r == ChunkSize(s)
  {
    if s == "" {
      return None;
    }
    var value := 0;
    for i := 0 to |s|
      invariant AllHex(s[..i])
      invariant value == HexValue(s[..i]) % SIZE_T
    {
      var digit := HexDigit(s[i]);
      if digit.None? {
        return None;
      }
      assert s[..i + 1][..i] == s[..i];
      ShiftWraps(HexValue(s[..i]), digit.value);
      value := (16 * value + digit.value) % SIZE_T;
    }
    assert s[..|s|] == s;
    return Some(value);
  }

  /** The digits before a chunk extension. */
  function BeforeSemicolon(line: string): string {
    line[..IndexFrom(line, ';', 0)]
  }

  /** A size line is read as the number that its text before any semicolon writes, modulo
      2^64, and refused when that writes none. */
  lemma ChunkSizeReads(line: string, size: string, ext: string, n: nat)
    requires line == size + ext && ';' !in size && (ext == "" || ext[0] == ';')
    ensures size != "" && Writes(size, 16, n) ==> ChunkSize(BeforeSemicolon(line)) == Some(n % 0x1_0000_0000_0000_0000)
  {
    hide HexValue, Writes, AllHex, BeforeSemicolon;
    BeforeSemicolonOf(size, ext);
    HexWrites(size, n);
  }

  lemma ChunkSizeOnly(line: string) returns (size: string, ext: string, n: nat)
    requires ChunkSize(BeforeSemicolon(line)).Some?
    ensures line == size + ext && size != "" && Writes(size, 16, n) && (ext == "" || ext[0] == ';')
  {
    hide Writes;
    size := BeforeSemicolon(line);
    ext := line[|size|..];
    n := HexValue(size);
    HexWrites(size, n);
  }

  /** What stands before an extension is cut out, blanks included. */
  lemma BeforeSemicolonOf(size: string, ext: string)
    requires ';' !in size
    requires ext == "" || ext[0] == ';'
    ensures BeforeSemicolon(size + ext) == size
  {
    var line := size + ext;
    assert forall j :: 0 <= j < |size| ==> line[j] == size[j];
    assert |ext| > 0 ==> line[|size|] == ';';
  }
}
