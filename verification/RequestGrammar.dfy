/** The requests the parser accepts, as a grammar: a variant of the request head
    of sections 2.2 and 5.1 of RFC 1945, with one space after the colon of a
    header, no folded header lines, and a possibly empty URI. */
module RequestGrammar {
  import opened RequestParser

  datatype Header = Header(name: string, value: string)

  datatype Head = Head(verb: string, uri: string, major: string, minor: string, headers: seq<Header>)

  ghost predicate AllIn(st: State, t: string)
    requires Loops(st)
  {
    forall i :: 0 <= i < |t| ==> Inside(st, t[i])
  }

  ghost predicate ValidHeader(h: Header) {
    h.name != "" && AllIn(HeaderName, h.name) && AllIn(HeaderValue, h.value)
  }

  /** Tokens, visible characters and digits where they belong. */
  ghost predicate Valid(h: Head) {
    && h.verb != "" && AllIn(Method, h.verb)
    && AllIn(Uri, h.uri)
    && h.major != "" && AllIn(Major, h.major)
    && h.minor != "" && AllIn(Minor, h.minor)
    && forall i :: 0 <= i < |h.headers| ==> ValidHeader(h.headers[i])
  }

  ghost function RenderHeader(h: Header): string {
    h.name + ": " + h.value + "\r\n"
  }

  ghost function RenderHeaders(hs: seq<Header>): string {
    if hs == [] then "\r\n" else RenderHeader(hs[0]) + RenderHeaders(hs[1..])
  }

  ghost function Render(h: Head): string {
    h.verb + " " + h.uri + " HTTP/" + h.major + "." + h.minor + "\r\n" + RenderHeaders(h.headers)
  }

  /** The number a string of digits denotes. */
  ghost function Decimal(t: string): int {
    if t == "" then 0 else Decimal(t[..|t| - 1]) * 10 + DigitValue(t[|t| - 1])
  }

  // ---------------------------------------------------- characters and numbers

  lemma TokensBeforeLetters(c: char)
    requires c < 'A'
    ensures IsToken(c) <==> '0' <= c <= '9' || c in "!#$%&'*+-."
  {
  }

  lemma TokensFromLettersOn(c: char)
    requires c >= 'A'
    ensures IsToken(c) <==> 'A' <= c <= 'Z' || 'a' <= c <= 'z' || c in "^_`|~"
  {
  }

  /** The characters of a token. */
  lemma TokenCharacters(c: char)
    ensures IsToken(c) <==>
      '0' <= c <= '9' || 'A' <= c <= 'Z' || 'a' <= c <= 'z' || c in "!#$%&'*+-." || c in "^_`|~"
  {
    if c < 'A' {
      TokensBeforeLetters(c);
    } else {
      TokensFromLettersOn(c);
    }
  }

  /** A head is made of tokens, of a URI without controls and spaces, of version
      numbers in decimal digits, and of header values without controls. */
  lemma ValidCharacters(h: Head)
    ensures Valid(h) <==>
      && h.verb != "" && (forall i :: 0 <= i < |h.verb| ==> IsToken(h.verb[i]))
      && (forall i :: 0 <= i < |h.uri| ==> 32 < h.uri[i] as int != 127)
      && h.major != "" && (forall i :: 0 <= i < |h.major| ==> h.major[i] in "0123456789")
      && h.minor != "" && (forall i :: 0 <= i < |h.minor| ==> h.minor[i] in "0123456789")
      && forall k :: 0 <= k < |h.headers| ==>
           && h.headers[k].name != ""
           && (forall i :: 0 <= i < |h.headers[k].name| ==> IsToken(h.headers[k].name[i]))
           && forall i :: 0 <= i < |h.headers[k].value| ==> 32 <= h.headers[k].value[i] as int != 127
  {
  }

  /** The text of a head, line by line. */
  lemma RenderedText(verb: string, uri: string, major: string, minor: string, hs: seq<Header>, name: string,
      value: string)
    ensures Render(Head(verb, uri, major, minor, hs))
         == verb + " " + uri + " HTTP/" + major + "." + minor + "\r\n" + RenderHeaders(hs)
    ensures RenderHeaders([]) == "\r\n"
    ensures RenderHeaders([Header(name, value)] + hs) == name + ": " + value + "\r\n" + RenderHeaders(hs)
  {
    assert ([Header(name, value)] + hs)[1..] == hs;
  }

  /** The decimal numeral of a number. */
  ghost function Numeral(n: nat): string {
    if n < 10 then ["0123456789"[n]] else Numeral(n / 10) + ["0123456789"[n % 10]]
  }

  /** One more digit, leading zeros included. */
  lemma DecimalGrows(t: string, v: nat)
    requires v < 10
    ensures Decimal("") == 0 && Decimal(t + ["0123456789"[v]]) == 10 * Decimal(t) + v
  {
    var d := "0123456789"[v];
    assert (t + [d])[..|t|] == t;
    assert d as int == '0' as int + v;
  }

  lemma {:induction false} NumeralIsRead(n: nat)
    ensures Numeral(n) != "" && AllIn(Major, Numeral(n)) && Decimal(Numeral(n)) == n
  {
    if n < 10 {
      DecimalGrows("", n);
      assert "" + ["0123456789"[n]] == ["0123456789"[n]];
    } else {
      NumeralIsRead(n / 10);
      DecimalGrows(Numeral(n / 10), n % 10);
    }
  }

  // ------------------------------------------------------------- acceptance

  datatype Answer = Rejected | Accepted(fields: Fields)

  /** Accepted, with the fields read, when the parser answers true on exactly
      the whole input. */
  ghost function Answered(st: State, f: Fields, s: string): Answer {
    var o := Parse(st, f, s);
    if o.result == True && o.consumed == |s| then Accepted(o.fields) else Rejected
  }

  /** The state loops on a class of characters until a terminator. */
  predicate Loops(st: State) {
    st.Method? || st.Uri? || st.Major? || st.Minor? || st.HeaderName? || st.HeaderValue?
  }

  predicate Inside(st: State, c: char)
    requires Loops(st)
  {
    match st
    case Method => IsToken(c)
    case Uri => c != ' ' && !IsCtl(c)
    case Major => IsDigit(c)
    case Minor => IsDigit(c)
    case HeaderName => IsToken(c)
    case HeaderValue => !IsCtl(c)
  }

  function Terminator(st: State): char
    requires Loops(st)
  {
    match st
    case Method => ' '
    case Uri => ' '
    case Major => '.'
    case Minor => '\r'
    case HeaderName => ':'
    case HeaderValue => '\r'
  }

  function After(st: State): State
    requires Loops(st)
  {
    match st
    case Method => Uri
    case Uri => VersionH
    case Major => MinorStart
    case Minor => Newline1
    case HeaderName => SpaceBeforeValue
    case HeaderValue => Newline2
  }

  /** The fields after the characters t are read inside a looping state. */
  ghost function Taken(st: State, f: Fields, t: string): Fields
    requires Loops(st)
    decreases |t|
  {
    if t == "" then f
    else
      var g := Taken(st, f, t[..|t| - 1]);
      var c := t[|t| - 1];
      match st
      case Method => g.(verb := g.verb + [c])
      case Uri => g.(uri := g.uri + [c])
      case Major => g.(major := g.major * 10 + DigitValue(c))
      case Minor => g.(minor := g.minor * 10 + DigitValue(c))
      case HeaderName => g
      case HeaderValue => g
  }

  lemma AnswerOneStep(st: State, f: Fields, s: string)
    ensures Answered(st, f, s) ==
            if s == "" then Rejected
            else
              var (st', f', r) := Step(st, f, s[0]);
              if r == Indeterminate then Answered(st', f', s[1..])
              else if r == True && s[1..] == "" then Accepted(f')
              else Rejected
  {
  }

  lemma StepInLoop(st: State, f: Fields, t: string, c: char)
    requires Loops(st)
    ensures Step(st, Taken(st, f, t), c) ==
            if c == Terminator(st) then (After(st), Taken(st, f, t), Indeterminate)
            else if Inside(st, c) then (st, Taken(st, f, t + [c]), Indeterminate)
            else (st, Taken(st, f, t), False)
  {
    assert (t + [c])[..|t + [c]| - 1] == t;
  }

  /** Reading a span of a looping state and its terminator. */
  lemma {:induction false} ReadSpan(st: State, f: Fields, t: string, u: string, rest: string)
    requires Loops(st) && AllIn(st, u)
    ensures Answered(st, Taken(st, f, t), u + [Terminator(st)] + rest) == Answered(After(st), Taken(st, f, t + u), rest)
    decreases |u|
  {
    var s := u + [Terminator(st)] + rest;
    AnswerOneStep(st, Taken(st, f, t), s);
    StepInLoop(st, f, t, s[0]);
    if u == "" {
      assert s[1..] == rest;
      assert t + u == t;
    } else {
      assert Inside(st, u[0]) && u[0] != Terminator(st);
      assert s[1..] == u[1..] + [Terminator(st)] + rest;
      assert t + u == t + [u[0]] + u[1..];
      ReadSpan(st, f, t + [u[0]], u[1..], rest);
    }
  }

  /** Accepted input of a looping state starts with a span and its terminator. */
  lemma {:induction false} FindSpan(st: State, f: Fields, s: string) returns (u: string, rest: string)
    requires Loops(st) && Answered(st, f, s).Accepted?
    ensures AllIn(st, u) && s == u + [Terminator(st)] + rest
    decreases |s|
  {
    AnswerOneStep(st, f, s);
    StepInLoop(st, f, "", s[0]);
    if s[0] == Terminator(st) {
      u, rest := "", s[1..];
    } else {
      u, rest := FindSpan(st, Step(st, f, s[0]).1, s[1..]);
      u := [s[0]] + u;
    }
  }

  /** Decimal numbers grow digit by digit. */
  lemma {:induction false} TakenFields(f: Fields, t: string)
    ensures Taken(Method, f, t) == f.(verb := f.verb + t)
    ensures Taken(Uri, f, t) == f.(uri := f.uri + t)
    ensures f.major == 0 ==> Taken(Major, f, t) == f.(major := Decimal(t))
    ensures f.minor == 0 ==> Taken(Minor, f, t) == f.(minor := Decimal(t))
    ensures Taken(HeaderName, f, t) == f && Taken(HeaderValue, f, t) == f
    decreases |t|
  {
    if t == "" {
      assert f.verb + t == f.verb && f.uri + t == f.uri;
    } else {
      var r := t[..|t| - 1];
      TakenFields(f, r);
      assert t == r + [t[|t| - 1]];
      assert f.verb + t == f.verb + r + [t[|t| - 1]];
      assert f.uri + t == f.uri + r + [t[|t| - 1]];
    }
  }

  // ------------------------------------------------ exact characters

  /** The state waits for one exact character. */
  predicate Waits(st: State) {
    || st.VersionH? || st.VersionT1? || st.VersionT2? || st.VersionP?
    || st.Newline1? || st.Newline2? || st.SpaceBeforeValue?
  }

  function Wanted(st: State): char
    requires Waits(st)
  {
    match st
    case VersionH => 'H'
    case VersionT1 => 'T'
    case VersionT2 => 'T'
    case VersionP => 'P'
    case Newline1 => '\n'
    case Newline2 => '\n'
    case SpaceBeforeValue => ' '
  }

  function Next(st: State): State
    requires Waits(st)
  {
    match st
    case VersionH => VersionT1
    case VersionT1 => VersionT2
    case VersionT2 => VersionP
    case VersionP => VersionSlash
    case Newline1 => LineStart
    case Newline2 => LineStart
    case SpaceBeforeValue => HeaderValue
  }

  lemma ReadOne(st: State, f: Fields, s: string)
    requires Waits(st)
    ensures Answered(st, f, s) ==
            if s != "" && s[0] == Wanted(st) then Answered(Next(st), f, s[1..]) else Rejected
  {
    AnswerOneStep(st, f, s);
  }

  /** The version prefix. */
  lemma ReadHttp(f: Fields, rest: string)
    ensures Answered(VersionH, f, "HTTP/" + rest) == Answered(MajorStart, f.(major := 0, minor := 0), rest)
  {
    var s := "HTTP/" + rest;
    ReadOne(VersionH, f, s);
    ReadOne(VersionT1, f, s[1..]);
    ReadOne(VersionT2, f, s[1..][1..]);
    ReadOne(VersionP, f, s[1..][1..][1..]);
    AnswerOneStep(VersionSlash, f, s[1..][1..][1..][1..]);
    assert s[1..][1..][1..][1..][1..] == rest;
  }

  lemma FindHttp(f: Fields, s: string) returns (rest: string)
    requires Answered(VersionH, f, s).Accepted?
    ensures s == "HTTP/" + rest
  {
    ReadOne(VersionH, f, s);
    ReadOne(VersionT1, f, s[1..]);
    ReadOne(VersionT2, f, s[1..][1..]);
    ReadOne(VersionP, f, s[1..][1..][1..]);
    AnswerOneStep(VersionSlash, f, s[1..][1..][1..][1..]);
    rest := s[5..];
  }

  // ------------------------------------------------- spans with a first character

  /** The state reads the first character of a non-empty span. */
  predicate Opens(st: State) {
    st.MethodStart? || st.MajorStart? || st.MinorStart? || st.LineStart?
  }

  function Opened(st: State): State
    requires Opens(st)
  {
    match st
    case MethodStart => Method
    case MajorStart => Major
    case MinorStart => Minor
    case LineStart => HeaderName
  }

  lemma StepOpens(st: State, f: Fields, c: char)
    requires Opens(st) && !(st.LineStart? && c == '\r')
    ensures Step(st, f, c) ==
            if Inside(Opened(st), c) then (Opened(st), Taken(Opened(st), f, [c]), Indeterminate) else (st, f, False)
  {
    assert [c][..0] == "";
  }

  lemma ReadOpened(st: State, f: Fields, u: string, rest: string)
    requires Opens(st) && u != "" && AllIn(Opened(st), u)
    ensures Answered(st, f, u + [Terminator(Opened(st))] + rest)
         == Answered(After(Opened(st)), Taken(Opened(st), f, u), rest)
  {
    var loop := Opened(st);
    var s := u + [Terminator(loop)] + rest;
    assert Inside(loop, u[0]);
    AnswerOneStep(st, f, s);
    StepOpens(st, f, u[0]);
    assert s[1..] == u[1..] + [Terminator(loop)] + rest;
    ReadSpan(loop, f, [u[0]], u[1..], rest);
    assert [u[0]] + u[1..] == u;
  }

  lemma FindOpened(st: State, f: Fields, s: string) returns (u: string, rest: string)
    requires Opens(st) && Answered(st, f, s).Accepted?
    requires !(st.LineStart? && s != "" && s[0] == '\r')
    ensures u != "" && AllIn(Opened(st), u) && s == u + [Terminator(Opened(st))] + rest
  {
    AnswerOneStep(st, f, s);
    StepOpens(st, f, s[0]);
    u, rest := FindSpan(Opened(st), Taken(Opened(st), f, [s[0]]), s[1..]);
    u := [s[0]] + u;
  }

  // ----------------------------------------------------------------- header lines

  /** A header line and what follows, span by span. */
  lemma HeaderShape(h: Header, rest: string)
    ensures RenderHeader(h) + rest == h.name + [':'] + ([' '] + (h.value + ['\r'] + (['\n'] + rest)))
  {
    assert h.name + ": " + h.value + "\r\n" + rest
        == h.name + ([':'] + ([' '] + (h.value + (['\r'] + (['\n'] + rest)))));
  }

  lemma ReadHeader(h: Header, f: Fields, rest: string)
    requires ValidHeader(h)
    ensures Answered(LineStart, f, RenderHeader(h) + rest) == Answered(LineStart, f, rest)
  {
    HeaderShape(h, rest);
    var afterValue := ['\n'] + rest;
    var value := h.value + ['\r'] + afterValue;
    ReadOpened(LineStart, f, h.name, [' '] + value);
    TakenFields(f, h.name);
    ReadOne(SpaceBeforeValue, f, [' '] + value);
    assert ([' '] + value)[1..] == value;
    ReadValue(h, f, afterValue);
    ReadOne(Newline2, f, afterValue);
    assert afterValue[1..] == rest;
  }

  lemma ReadValue(h: Header, f: Fields, rest: string)
    requires ValidHeader(h)
    ensures Answered(HeaderValue, f, h.value + ['\r'] + rest) == Answered(Newline2, f, rest)
  {
    assert "" + h.value == h.value;
    ReadSpan(HeaderValue, f, "", h.value, rest);
    TakenFields(f, h.value);
  }

  lemma FindHeader(f: Fields, s: string) returns (h: Header, rest: string)
    requires Answered(LineStart, f, s).Accepted? && !(s != "" && s[0] == '\r')
    ensures ValidHeader(h) && s == RenderHeader(h) + rest
  {
    var name, s1 := FindOpened(LineStart, f, s);
    ReadOpened(LineStart, f, name, s1);
    TakenFields(f, name);
    ReadOne(SpaceBeforeValue, f, s1);
    var value, s2 := FindSpan(HeaderValue, f, s1[1..]);
    h := Header(name, value);
    ReadValue(h, f, s2);
    ReadOne(Newline2, f, s2);
    rest := s2[1..];
    assert s1 == [' '] + s1[1..] && s2 == ['\n'] + rest;
    HeaderShape(h, rest);
  }

  lemma ReadEnd(f: Fields, s: string)
    requires s != "" && s[0] == '\r'
    ensures Answered(LineStart, f, s) == if s == "\r\n" then Accepted(f) else Rejected
  {
    AnswerOneStep(LineStart, f, s);
    AnswerOneStep(Newline3, f, s[1..]);
    if s[1..] != "" && s[1..][1..] == "" {
      assert s == [s[0], s[1]];
    }
  }

  lemma {:induction false} ReadHeaders(hs: seq<Header>, f: Fields)
    requires forall i :: 0 <= i < |hs| ==> ValidHeader(hs[i])
    ensures Answered(LineStart, f, RenderHeaders(hs)) == Accepted(f)
  {
    if hs == [] {
      ReadEnd(f, "\r\n");
    } else {
      ReadHeader(hs[0], f, RenderHeaders(hs[1..]));
      ReadHeaders(hs[1..], f);
    }
  }

  lemma {:induction false} FindHeaders(f: Fields, s: string) returns (hs: seq<Header>)
    requires Answered(LineStart, f, s).Accepted?
    ensures forall i :: 0 <= i < |hs| ==> ValidHeader(hs[i])
    ensures s == RenderHeaders(hs)
    decreases |s|
  {
    if s != "" && s[0] == '\r' {
      ReadEnd(f, s);
      hs := [];
    } else {
      var h, rest := FindHeader(f, s);
      ReadHeader(h, f, rest);
      hs := FindHeaders(f, rest);
      hs := [h] + hs;
    }
  }

  // ------------------------------------------------------------- main results

  /** The fields of a parsed head, on top of what the request held before. */
  ghost function FieldsOf(h: Head, f: Fields): Fields {
    Fields(f.verb + h.verb, f.uri + h.uri, Decimal(h.major), Decimal(h.minor))
  }

  /** A head, span by span. */
  lemma HeadShape(h: Head)
    ensures Render(h) == h.verb + [' '] + (h.uri + [' '] + ("HTTP/" + RenderVersion(h.major, h.minor, h.headers)))
  {
    var v := RenderVersion(h.major, h.minor, h.headers);
    var tail := "\r\n" + RenderHeaders(h.headers);
    assert v == h.major + "." + h.minor + tail;
    assert h.uri + " HTTP/" + v == h.uri + [' '] + ("HTTP/" + v);
    assert Render(h) == h.verb + " " + (h.uri + " HTTP/" + (h.major + "." + h.minor + tail));
  }

  /** The version numbers and what follows. */
  ghost function RenderVersion(major: string, minor: string, headers: seq<Header>): string {
    major + ['.'] + (minor + ['\r'] + (['\n'] + RenderHeaders(headers)))
  }

  /** Every rendered head is accepted, with its own method, URI and version. */
  lemma RenderedIsAccepted(h: Head, f: Fields)
    requires Valid(h)
    ensures Answered(MethodStart, f, Render(h)) == Accepted(FieldsOf(h, f))
  {
    HeadShape(h);
    var s2 := RenderVersion(h.major, h.minor, h.headers);
    var s1 := h.uri + [' '] + ("HTTP/" + s2);
    ReadOpened(MethodStart, f, h.verb, s1);
    TakenFields(f, h.verb);
    var f1 := f.(verb := f.verb + h.verb);
    assert Taken(Uri, f1, "") == f1 && "" + h.uri == h.uri;
    ReadSpan(Uri, f1, "", h.uri, "HTTP/" + s2);
    TakenFields(f1, h.uri);
    var f2 := f1.(uri := f1.uri + h.uri);
    ReadHttp(f2, s2);
    ReadVersion(h, f2.(major := 0, minor := 0));
    ReadHeaders(h.headers, FieldsOf(h, f));
  }

  lemma ReadVersion(h: Head, f: Fields)
    requires Valid(h) && f.major == 0 && f.minor == 0
    ensures Answered(MajorStart, f, RenderVersion(h.major, h.minor, h.headers))
         == Answered(LineStart, f.(major := Decimal(h.major), minor := Decimal(h.minor)), RenderHeaders(h.headers))
  {
    var s5 := RenderHeaders(h.headers);
    var s3 := h.minor + ['\r'] + (['\n'] + s5);
    ReadOpened(MajorStart, f, h.major, s3);
    TakenFields(f, h.major);
    var f1 := f.(major := Decimal(h.major));
    ReadOpened(MinorStart, f1, h.minor, ['\n'] + s5);
    TakenFields(f1, h.minor);
    var f2 := f1.(minor := Decimal(h.minor));
    ReadOne(Newline1, f2, ['\n'] + s5);
    assert (['\n'] + s5)[1..] == s5;
  }

  /** Every accepted input is a rendered head. */
  lemma AcceptedIsRendered(s: string, f: Fields) returns (h: Head)
    requires Answered(MethodStart, f, s).Accepted?
    ensures Valid(h) && s == Render(h)
  {
    var verb, s1 := FindOpened(MethodStart, f, s);
    ReadOpened(MethodStart, f, verb, s1);
    TakenFields(f, verb);
    var f1 := f.(verb := f.verb + verb);
    var uri, s2 := FindSpan(Uri, f1, s1);
    assert Taken(Uri, f1, "") == f1 && "" + uri == uri;
    ReadSpan(Uri, f1, "", uri, s2);
    TakenFields(f1, uri);
    var f2 := f1.(uri := f1.uri + uri);
    var s3 := FindHttp(f2, s2);
    ReadHttp(f2, s3);
    var major, minor, headers := FindVersion(f2.(major := 0, minor := 0), s3);
    h := Head(verb, uri, major, minor, headers);
    HeadShape(h);
  }

  lemma FindVersion(f: Fields, s: string) returns (major: string, minor: string, headers: seq<Header>)
    requires Answered(MajorStart, f, s).Accepted? && f.major == 0 && f.minor == 0
    ensures major != "" && AllIn(Major, major) && minor != "" && AllIn(Minor, minor)
    ensures forall i :: 0 <= i < |headers| ==> ValidHeader(headers[i])
    ensures s == RenderVersion(major, minor, headers)
  {
    var s1, s2;
    major, s1 := FindOpened(MajorStart, f, s);
    ReadOpened(MajorStart, f, major, s1);
    TakenFields(f, major);
    var f1 := f.(major := Decimal(major));
    minor, s2 := FindOpened(MinorStart, f1, s1);
    ReadOpened(MinorStart, f1, minor, s2);
    TakenFields(f1, minor);
    var f2 := f1.(minor := Decimal(minor));
    ReadOne(Newline1, f2, s2);
    headers := FindHeaders(f2, s2[1..]);
    assert s2 == ['\n'] + s2[1..];
  }

  /** From reset, the parser accepts exactly the rendered heads. */
  lemma AcceptsExactlyTheGrammar(s: string, f: Fields)
    ensures Answered(MethodStart, f, s).Accepted? <==> exists h :: Valid(h) && s == Render(h)
  {
    if Answered(MethodStart, f, s).Accepted? {
      var h := AcceptedIsRendered(s, f);
    }
    if h :| Valid(h) && s == Render(h) {
      RenderedIsAccepted(h, f);
    }
  }

  /** Resets a parser and feeds it one input: it accepts at the very end of the
      input exactly when the input is a rendered head, and the request then has the
      fields of that head. */
  method ReadHead(parser: Parser, req: Request, input: string) returns (accepted: bool, begin: nat)
    modifies parser, req
    ensures accepted && begin == |input| <==> exists h :: Valid(h) && input == Render(h)
    ensures forall h :: Valid(h) && input == Render(h) ==>
      && req.View() == FieldsOf(h, old(req.View()))
      && req.verb == old(req.verb) + h.verb && req.uri == old(req.uri) + h.uri
    ensures forall h, a: nat, b: nat ::
      Valid(h) && input == Render(h) && h.major == Numeral(a) && h.minor == Numeral(b) ==>
      req.httpVersionMajor == a && req.httpVersionMinor == b
  {
    ghost var f := req.View();
    parser.Reset();
    var r;
    r, begin := parser.ParseInput(req, input);
    accepted := r == True;
    AcceptsExactlyTheGrammar(input, f);
    forall h | Valid(h) && input == Render(h)
      ensures req.View() == FieldsOf(h, f)
    {
      RenderedIsAccepted(h, f);
    }
    forall a: nat
      ensures Decimal(Numeral(a)) == a
    {
      NumeralIsRead(a);
    }
  }

  // ----------------------------------------------------- the three answers

  /** The parser can be led to accept from every state it enters. */
  lemma {:induction false} CanFinish(st: State, f: Fields) returns (q: string)
    requires !st.UriStart? && !st.HeaderLws?
    ensures Answered(st, f, q).Accepted?
    decreases Remaining(st)
  {
    if st.Newline3? {
      q := "\n";
      AnswerOneStep(st, f, q);
    } else {
      var c := Onward(st);
      LeadsOnward(st, f);
      var rest := CanFinish(Step(st, f, c).0, Step(st, f, c).1);
      q := [c] + rest;
      AnswerOneStep(st, f, q);
      assert q[1..] == rest;
    }
  }

  lemma LeadsOnward(st: State, f: Fields)
    requires !st.UriStart? && !st.HeaderLws? && !st.Newline3?
    ensures var (st', _, r) := Step(st, f, Onward(st));
            r == Indeterminate && !st'.UriStart? && !st'.HeaderLws? && Remaining(st') < Remaining(st)
  {
  }

  /** How many characters are needed at least until acceptance. */
  function Remaining(st: State): nat {
    match st
    case MethodStart => 15
    case Method => 14
    case UriStart => 14
    case Uri => 13
    case VersionH => 12
    case VersionT1 => 11
    case VersionT2 => 10
    case VersionP => 9
    case VersionSlash => 8
    case MajorStart => 7
    case Major => 6
    case MinorStart => 5
    case Minor => 4
    case Newline1 => 3
    case HeaderName => 6
    case SpaceBeforeValue => 5
    case HeaderLws => 4
    case HeaderValue => 4
    case Newline2 => 3
    case LineStart => 2
    case Newline3 => 1
  }

  /** A character that leads on towards acceptance. */
  function Onward(st: State): char {
    if st.MethodStart? then 'A'
    else if Loops(st) then Terminator(st)
    else if Waits(st) then Wanted(st)
    else if st.VersionSlash? then '/'
    else if st.MajorStart? || st.MinorStart? then '0'
    else '\r'
  }

  /** More input is asked for exactly when what is read is the beginning of a head
      and not all of it. */
  lemma MoreIsNeededIff(s: string, f: Fields)
    ensures Parse(MethodStart, f, s).result == Indeterminate <==> exists h :: Valid(h) && s < Render(h)
  {
    var o := Parse(MethodStart, f, s);
    if o.result == Indeterminate {
      TwoStatesAreNeverEntered(MethodStart, f, s);
      var q := CanFinish(o.state, o.fields);
      ParseConcat(MethodStart, f, s, q);
      var h := AcceptedIsRendered(s + q, f);
      assert s < Render(h);
    }
    if h :| Valid(h) && s < Render(h) {
      RenderedIsAccepted(h, f);
      ParseConcat(MethodStart, f, s, Render(h)[|s|..]);
      assert s + Render(h)[|s|..] == Render(h);
    }
  }

  /** The answer is true exactly when the input begins with a head, and then this
      head is all that is consumed. */
  lemma TrueIff(s: string, f: Fields)
    ensures Parse(MethodStart, f, s).result == True <==> exists h :: Valid(h) && Render(h) <= s
    ensures forall h :: Valid(h) && Render(h) <= s ==> Parse(MethodStart, f, s).consumed == |Render(h)|
  {
    if Parse(MethodStart, f, s).result == True {
      var h := HeadOf(s, f);
    }
    forall h | Valid(h) && Render(h) <= s
      ensures Parse(MethodStart, f, s).result == True && Parse(MethodStart, f, s).consumed == |Render(h)|
    {
      HeadIsConsumed(h, s, f);
    }
  }

  lemma HeadIsConsumed(h: Head, s: string, f: Fields)
    requires Valid(h) && Render(h) <= s
    ensures Parse(MethodStart, f, s).result == True && Parse(MethodStart, f, s).consumed == |Render(h)|
  {
    RenderedIsAccepted(h, f);
    ParseConcat(MethodStart, f, Render(h), s[|Render(h)|..]);
    assert Render(h) + s[|Render(h)|..] == s;
  }

  lemma HeadOf(s: string, f: Fields) returns (h: Head)
    requires Parse(MethodStart, f, s).result == True
    ensures Valid(h) && Render(h) <= s
  {
    ConsumedIsEnough(MethodStart, f, s);
    h := AcceptedIsRendered(s[..Parse(MethodStart, f, s).consumed], f);
  }

  /** A definite answer depends on the consumed characters only. */
  lemma {:induction false} ConsumedIsEnough(st: State, f: Fields, s: string)
    requires Parse(st, f, s).result != Indeterminate
    ensures var o := Parse(st, f, s); Parse(st, f, s[..o.consumed]) == o
    decreases |s|
  {
    var o := Parse(st, f, s);
    var (st', f', r) := Step(st, f, s[0]);
    assert s[..o.consumed][0] == s[0];
    if r == Indeterminate {
      ConsumedIsEnough(st', f', s[1..]);
      assert s[..o.consumed][1..] == s[1..][..o.consumed - 1];
    }
  }

  /** No accepted input goes on to another accepted input. */
  lemma NoAcceptedProperPrefix(st: State, f: Fields, p: string, q: string)
    requires Answered(st, f, p).Accepted? && Answered(st, f, p + q).Accepted?
    ensures q == ""
  {
    ParseConcat(st, f, p, q);
  }

  /** Once the parser is in another state, it never enters the states that would
      start a URI or fold a header line; a reset parser is in another state. */
  lemma {:induction false} TwoStatesAreNeverEntered(st: State, f: Fields, s: string)
    requires !st.UriStart? && !st.HeaderLws?
    ensures !Parse(st, f, s).state.UriStart? && !Parse(st, f, s).state.HeaderLws?
    decreases |s|
  {
    if s == "" {
    } else {
      var (st', f', r) := Step(st, f, s[0]);
      if r == Indeterminate {
        TwoStatesAreNeverEntered(st', f', s[1..]);
      }
    }
  }
}
