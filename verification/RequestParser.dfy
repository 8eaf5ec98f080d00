/** The incremental parser of HTTP request heads: a character-level state
    machine, the requests it accepts, and its independence of how the input is
    cut into pieces. */
module RequestParser {

  datatype State =
    | MethodStart | Method | UriStart | Uri
    | VersionH | VersionT1 | VersionT2 | VersionP | VersionSlash
    | MajorStart | Major | MinorStart | Minor
    | Newline1 | LineStart | HeaderLws | HeaderName | SpaceBeforeValue | HeaderValue
    | Newline2 | Newline3

  /** The outcome of a character: request complete, input invalid, or more needed. */
  datatype Tribool = True | False | Indeterminate

  /** The parsed fields of a request. */
  datatype Fields = Fields(verb: string, uri: string, major: int, minor: int)

  // --------------------------------------------------------------- characters

  predicate IsChar(c: char) {
    c as int <= 127
  }

  predicate IsCtl(c: char) {
    c as int <= 31 || c as int == 127
  }

  predicate IsTspecial(c: char) {
    c in "()<>@,;:\\\"/[]?={} \t"
  }

  predicate IsDigit(c: char) {
    '0' <= c <= '9'
  }

  /** A character allowed in a method or a header name. */
  predicate IsToken(c: char) {
    IsChar(c) && !IsCtl(c) && !IsTspecial(c)
  }

  function DigitValue(c: char): int {
    c as int - '0' as int
  }

  // ---------------------------------------------------------------- one step

  /** What one character does to the state and the fields. */
  function Step(st: State, f: Fields, c: char): (State, Fields, Tribool) {
    match st
    case MethodStart =>
      if !IsToken(c) then (st, f, False) else (Method, f.(verb := f.verb + [c]), Indeterminate)
    case Method =>
      if c == ' ' then (Uri, f, Indeterminate)
      else if !IsToken(c) then (st, f, False)
      else (st, f.(verb := f.verb + [c]), Indeterminate)
    case UriStart =>
      if IsCtl(c) then (st, f, False) else (Uri, f.(uri := f.uri + [c]), Indeterminate)
    case Uri =>
      if c == ' ' then (VersionH, f, Indeterminate)
      else if IsCtl(c) then (st, f, False)
      else (st, f.(uri := f.uri + [c]), Indeterminate)
    case VersionH => Expect(st, f, c, 'H', VersionT1)
    case VersionT1 => Expect(st, f, c, 'T', VersionT2)
    case VersionT2 => Expect(st, f, c, 'T', VersionP)
    case VersionP => Expect(st, f, c, 'P', VersionSlash)
    case VersionSlash =>
      if c == '/' then (MajorStart, f.(major := 0, minor := 0), Indeterminate) else (st, f, False)
    case MajorStart =>
      if IsDigit(c) then (Major, f.(major := f.major * 10 + DigitValue(c)), Indeterminate) else (st, f, False)
    case Major =>
      if c == '.' then (MinorStart, f, Indeterminate)
      else if IsDigit(c) then (st, f.(major := f.major * 10 + DigitValue(c)), Indeterminate)
      else (st, f, False)
    case MinorStart =>
      if IsDigit(c) then (Minor, f.(minor := f.minor * 10 + DigitValue(c)), Indeterminate) else (st, f, False)
    case Minor =>
      if c == '\r' then (Newline1, f, Indeterminate)
      else if IsDigit(c) then (st, f.(minor := f.minor * 10 + DigitValue(c)), Indeterminate)
      else (st, f, False)
    case Newline1 => Expect(st, f, c, '\n', LineStart)
    case LineStart =>
      if c == '\r' then (Newline3, f, Indeterminate)
      else if !IsToken(c) then (st, f, False)
      else (HeaderName, f, Indeterminate)
    case HeaderLws =>
      if c == '\r' then (Newline2, f, Indeterminate)
      else if c == ' ' || c == '\t' then (st, f, Indeterminate)
      else if IsCtl(c) then (st, f, False)
      else (HeaderValue, f, Indeterminate)
    case HeaderName =>
      if c == ':' then (SpaceBeforeValue, f, Indeterminate)
      else if !IsToken(c) then (st, f, False)
      else (st, f, Indeterminate)
    case SpaceBeforeValue => Expect(st, f, c, ' ', HeaderValue)
    case HeaderValue =>
      if c == '\r' then (Newline2, f, Indeterminate)
      else if IsCtl(c) then (st, f, False)
      else (st, f, Indeterminate)
    case Newline2 => Expect(st, f, c, '\n', LineStart)
    case Newline3 => (st, f, if c == '\n' then True else False)
  }

  /** One exact character leads to the next state. */
  function Expect(st: State, f: Fields, c: char, wanted: char, next: State): (State, Fields, Tribool) {
    if c == wanted then (next, f, Indeterminate) else (st, f, False)
  }

  // --------------------------------------------------------------- whole runs

  /** Where parsing some input ends: the answer, the state and fields, and how
      many characters were consumed. */
  datatype Outcome = Outcome(result: Tribool, state: State, fields: Fields, consumed: nat)

  function Parse(st: State, f: Fields, input: string): (o: Outcome)
    ensures o.consumed <= |input|
    ensures o.result == Indeterminate ==> o.consumed == |input|
    decreases |input|
  {
    if input == [] then Outcome(Indeterminate, st, f, 0)
    else
      var (st', f', r) := Step(st, f, input[0]);
      if r != Indeterminate then Outcome(r, st', f', 1)
      else
        var o := Parse(st', f', input[1..]);
        o.(consumed := o.consumed + 1)
  }

  /** Cutting the input changes nothing: unless the first piece already settles
      the answer, parsing goes on from where it stopped. */
  lemma {:induction false} ParseConcat(st: State, f: Fields, a: string, b: string)
    ensures var o := Parse(st, f, a);
            Parse(st, f, a + b) ==
            if o.result != Indeterminate then o
            else
              var p := Parse(o.state, o.fields, b);
              p.(consumed := |a| + p.consumed)
    decreases |a|
  {
    if a == [] {
      assert a + b == b;
    } else {
      var (st', f', r) := Step(st, f, a[0]);
      assert (a + b)[0] == a[0] && (a + b)[1..] == a[1..] + b;
      if r == Indeterminate {
        ParseConcat(st', f', a[1..], b);
      }
    }
  }

  /** Feeds pieces one after the other until one of them gives a definite answer. */
  function ParsePieces(st: State, f: Fields, pieces: seq<string>): Outcome
    decreases |pieces|
  {
    if pieces == [] then Outcome(Indeterminate, st, f, 0)
    else
      var o := Parse(st, f, pieces[0]);
      if o.result != Indeterminate then o
      else
        var p := ParsePieces(o.state, o.fields, pieces[1..]);
        p.(consumed := o.consumed + p.consumed)
  }

  function Whole(pieces: seq<string>): string {
    if pieces == [] then [] else pieces[0] + Whole(pieces[1..])
  }

  /** Parsing is independent of how the input is cut: answer, state, fields and
      total number of consumed characters are those of one call. */
  lemma {:induction false} ParsingIgnoresCuts(st: State, f: Fields, pieces: seq<string>)
    ensures ParsePieces(st, f, pieces) == Parse(st, f, Whole(pieces))
    decreases |pieces|
  {
    if pieces == [] {
    } else {
      var o := Parse(st, f, pieces[0]);
      ParseConcat(st, f, pieces[0], Whole(pieces[1..]));
      if o.result == Indeterminate {
        ParsingIgnoresCuts(o.state, o.fields, pieces[1..]);
      }
    }
  }

  // -------------------------------------------------------- the parser object

  class Request {
    var verb: string
    var uri: string
    var httpVersionMajor: int
    var httpVersionMinor: int

    constructor ()
      ensures View() == Fields("", "", 0, 0)
    {
      verb, uri, httpVersionMajor, httpVersionMinor := "", "", 0, 0;
    }

    ghost function View(): Fields
      reads this
    {
      Fields(verb, uri, httpVersionMajor, httpVersionMinor)
    }
  }

  class Parser {
    var state: State

    constructor ()
      ensures state == MethodStart
    {
      state := MethodStart;
    }

    method Reset()
      modifies this
      ensures state == MethodStart
    {
      state := MethodStart;
    }

    /** Moves on when the one expected character is read. */
    method Require(input: char, wanted: char, next: State) returns (r: Tribool)
      modifies this
      ensures (state, r) == if input == wanted then (next, Indeterminate) else (old(state), False)
    {
      if input == wanted {
        state := next;
        r := Indeterminate;
      } else {
        r := False;
      }
    }

    /** Handles the next character of input. */
    method Consume(req: Request, input: char) returns (r: Tribool)
      modifies this, req
      ensures (state, req.View(), r) == Step(old(state), old(req.View()), input)
    {
      match state
      case MethodStart =>
        if !IsChar(input) || IsCtl(input) || IsTspecial(input) {
          return False;
        }
        state := Method;
        req.verb := req.verb + [input];
        return Indeterminate;
      case Method =>
        if input == ' ' {
          state := Uri;
          return Indeterminate;
        } else if !IsChar(input) || IsCtl(input) || IsTspecial(input) {
          return False;
        }
        req.verb := req.verb + [input];
        return Indeterminate;
      case UriStart =>
        if IsCtl(input) {
          return False;
        }
        state := Uri;
        req.uri := req.uri + [input];
        return Indeterminate;
      case Uri =>
        if input == ' ' {
          state := VersionH;
          return Indeterminate;
        } else if IsCtl(input) {
          return False;
        }
        req.uri := req.uri + [input];
        return Indeterminate;
      case VersionH => r := Require(input, 'H', VersionT1);
      case VersionT1 => r := Require(input, 'T', VersionT2);
      case VersionT2 => r := Require(input, 'T', VersionP);
      case VersionP => r := Require(input, 'P', VersionSlash);
      case VersionSlash =>
        if input == '/' {
          req.httpVersionMajor := 0;
          req.httpVersionMinor := 0;
        }
        r := Require(input, '/', MajorStart);
      case MajorStart =>
        if !IsDigit(input) {
          return False;
        }
        req.httpVersionMajor := req.httpVersionMajor * 10 + DigitValue(input);
        state := Major;
        return Indeterminate;
      case Major =>
        if input == '.' {
          state := MinorStart;
          return Indeterminate;
        } else if IsDigit(input) {
          req.httpVersionMajor := req.httpVersionMajor * 10 + DigitValue(input);
          return Indeterminate;
        }
        return False;
      case MinorStart =>
        if !IsDigit(input) {
          return False;
        }
        req.httpVersionMinor := req.httpVersionMinor * 10 + DigitValue(input);
        state := Minor;
        return Indeterminate;
      case Minor =>
        if input == '\r' {
          state := Newline1;
          return Indeterminate;
        } else if IsDigit(input) {
          req.httpVersionMinor := req.httpVersionMinor * 10 + DigitValue(input);
          return Indeterminate;
        }
        return False;
      case Newline1 => r := Require(input, '\n', LineStart);
      case LineStart =>
        if input == '\r' {
          state := Newline3;
          return Indeterminate;
        } else if !IsChar(input) || IsCtl(input) || IsTspecial(input) {
          return False;
        }
        state := HeaderName;
        return Indeterminate;
      case HeaderLws =>
        if input == '\r' {
          state := Newline2;
          return Indeterminate;
        } else if input == ' ' || input == '\t' {
          return Indeterminate;
        } else if IsCtl(input) {
          return False;
        }
        state := HeaderValue;
        return Indeterminate;
      case HeaderName =>
        if input == ':' {
          state := SpaceBeforeValue;
          return Indeterminate;
        } else if !IsChar(input) || IsCtl(input) || IsTspecial(input) {
          return False;
        }
        return Indeterminate;
      case SpaceBeforeValue => r := Require(input, ' ', HeaderValue);
      case HeaderValue =>
        if input == '\r' {
          state := Newline2;
          return Indeterminate;
        } else if IsCtl(input) {
          return False;
        }
        return Indeterminate;
      case Newline2 => r := Require(input, '\n', LineStart);
      case Newline3 =>
        return if input == '\n' then True else False;
    }

    /** Consumes input until a definite answer or the end of the input. */
    method ParseInput(req: Request, input: string) returns (r: Tribool, begin: nat)
      modifies this, req
      ensures Outcome(r, state, req.View(), begin) == Parse(old(state), old(req.View()), input)
    {
      begin := 0;
      while begin != |input|
        invariant 0 <= begin <= |input|
        invariant var o := Parse(state, req.View(), input[begin..]);
          Parse(old(state), old(req.View()), input) == o.(consumed := o.consumed + begin)
        decreases |input| - begin
      {
        assert input[begin..][1..] == input[begin + 1..];
        r := Consume(req, input[begin]);
        begin := begin + 1;
        if r != Indeterminate {
          return;
        }
      }
      r := Indeterminate;
    }
  }
}
