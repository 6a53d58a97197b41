/**
  The sequence tokenizer: a linearization sequence such as
  `"hi there" 0:1 'x'` becomes a list of terminal strings and
  (argument, reference) pairs. Each token is a double-quoted string, a
  single-quoted string or `<digits>:<digits>`, and must be followed by
  whitespace (which is consumed) or by the end of the text.
 */
module Sequences {
  import opened Wrappers
  import opened Errors
  import opened Lexing

  /** A sequence element: a terminal, or the `ref`-th output of the `arg`-th argument. */
  datatype Token = Str(text: string) | Ref(arg: nat, ref: nat)

  /** A token as matched, before its quoted text is unescaped. */
  datatype Lexeme = Quoted(body: string) | ArgRef(arg: nat, ref: nat)

  /**
    The index of the quote `q` that closes a quoted string whose body starts
    at `i`: plain characters other than `q` and backslash, or a backslash
    followed by any character except a line break.
   */
  function QuoteEnd(s: string, q: char, i: nat): (r: Option<nat>)
    requires i <= |s|
    ensures r.Some? ==> i <= r.value < |s| && s[r.value] == q
    decreases |s| - i
  {
    if i == |s| then None
    else if s[i] == q then Some(i)
    else if s[i] == '\\' then
      if i + 1 < |s| && s[i + 1] != '\n' then QuoteEnd(s, q, i + 2) else None
    else QuoteEnd(s, q, i + 1)
  }

  /** The end of the run of digits starting at `i`. */
  function DigitRun(s: string, i: nat): (j: nat)
    requires i <= |s|
    ensures i <= j <= |s|
    ensures j < |s| ==> !IsDigit(s[j])
    decreases |s| - i
  {
    if i < |s| && IsDigit(s[i]) then DigitRun(s, i + 1) else i
  }

  lemma {:induction false} DigitRunDigits(s: string, i: nat)
    requires i <= |s|
    ensures forall k :: i <= k < DigitRun(s, i) ==> IsDigit(s[k])
    decreases |s| - i
  {
    if i < |s| && IsDigit(s[i]) {
      DigitRunDigits(s, i + 1);
    }
  }

  /** The end of the run of whitespace starting at `i`. */
  function SpaceRun(s: string, i: nat): (j: nat)
    requires i <= |s|
    ensures i <= j <= |s|
    ensures j < |s| ==> !IsSpace(s[j])
    decreases |s| - i
  {
    if i < |s| && IsSpace(s[i]) then SpaceRun(s, i + 1) else i
  }

  /** `(?: \s+ | $)` after a token ending at `e`: where the next token may start. */
  function Separator(s: string, e: nat): (r: Option<nat>)
    requires e <= |s|
    ensures r.Some? ==> e <= r.value <= |s|
    ensures r.Some? ==> e == |s| || (IsSpace(s[e]) && e < r.value)
  {
    if e == |s| then Some(e)
    else if IsSpace(s[e]) then Some(SpaceRun(s, e))
    else None
  }

  /** The digits of `s` from `i` to `j`, as a number. */
  function NumeralAt(s: string, i: nat, j: nat): nat
    requires i <= j <= |s|
    requires forall k :: i <= k < j ==> IsDigit(s[k])
  {
    NatValue(s[i..j])
  }

  /**
    `SEQ_REGEXP.match(t)`: the token at the front of `t` and how many
    characters it takes, trailing whitespace included; None if no token
    matches there.
   */
  function MatchToken(t: string): (r: Option<(Lexeme, nat)>)
    ensures r.Some? ==> 0 < r.value.1 <= |t|
  {
    if t == [] then None
    else if t[0] == '"' || t[0] == '\'' then
      match QuoteEnd(t, t[0], 1)
      case None => None
      case Some(c) =>
        match Separator(t, c + 1)
        case None => None
        case Some(e) => Some((Quoted(t[1..c]), e))
    else if IsDigit(t[0]) then
      var d1 := DigitRun(t, 0);
      if d1 + 1 < |t| && t[d1] == ':' && IsDigit(t[d1 + 1]) then
        var d2 := DigitRun(t, d1 + 1);
        DigitRunDigits(t, 0);
        DigitRunDigits(t, d1 + 1);
        match Separator(t, d2)
        case None => None
        case Some(e) => Some((ArgRef(NumeralAt(t, 0, d1), NumeralAt(t, d1 + 1, d2)), e))
      else None
    else None
  }

  // The matcher against the pattern it stands for.

  /**
    The body of a literal quoted with `q`, as the pattern reads it: plain
    characters other than `q` and backslash, and backslashes each followed
    by any character except a line feed.
   */
  predicate IsBody(b: string, q: char)
    decreases |b|
  {
    || b == []
    || (b[0] != q && b[0] != '\\' && IsBody(b[1..], q))
    || (|b| >= 2 && b[0] == '\\' && b[1] != '\n' && IsBody(b[2..], q))
  }

  /** QuoteEnd stops at `j` exactly when a body runs from `i` to `j` and `q` stands at `j`. */
  lemma {:induction false} QuoteEndAt(s: string, q: char, i: nat, j: nat)
    requires q != '\\' && i <= j < |s|
    ensures QuoteEnd(s, q, i) == Some(j) <==> IsBody(s[i..j], q) && s[j] == q
    decreases |s| - i
  {
    var b := s[i..j];
    if j > i {
      assert b[0] == s[i];
    }
    if s[i] == q {
    } else if s[i] == '\\' {
      if i + 1 < |s| && s[i + 1] != '\n' && j >= i + 2 {
        assert b[2..] == s[i + 2..j];
        QuoteEndAt(s, q, i + 2, j);
      } else if j >= i + 2 {
        assert b[1] == s[i + 1];
      }
    } else if j > i {
      assert b[1..] == s[i + 1..j];
      QuoteEndAt(s, q, i + 1, j);
    }
  }

  /**
    The quote QuoteEnd finds is the only one that closes a body from `i`,
    and it finds none exactly when no quote does.
   */
  lemma QuoteEndExact(s: string, q: char, i: nat)
    requires q != '\\' && i <= |s|
    ensures forall j :: i <= j < |s| ==> (QuoteEnd(s, q, i) == Some(j) <==> IsBody(s[i..j], q) && s[j] == q)
    ensures QuoteEnd(s, q, i).None? <==> forall j :: i <= j < |s| ==> !(IsBody(s[i..j], q) && s[j] == q)
  {
    forall j | i <= j < |s| {
      QuoteEndAt(s, q, i, j);
    }
  }

  /**
    `(?: \s+ | $)` matches from `e` to `n`: at the end of the text, or over
    the whole nonempty run of whitespace that starts at `e`.
   */
  predicate SeparatedAt(s: string, e: nat, n: nat) {
    && e <= n <= |s|
    && (forall k :: e <= k < n ==> IsSpace(s[k]))
    && (n == |s| || !IsSpace(s[n]))
    && (e == |s| || e < n)
  }

  lemma {:induction false} SpaceRunSpaces(s: string, i: nat)
    requires i <= |s|
    ensures forall k :: i <= k < SpaceRun(s, i) ==> IsSpace(s[k])
    decreases |s| - i
  {
    if i < |s| && IsSpace(s[i]) {
      SpaceRunSpaces(s, i + 1);
    }
  }

  /** Separator ends at `n` exactly when the separator pattern matches from `e` to `n`. */
  lemma SeparatorExact(s: string, e: nat, n: nat)
    requires e <= |s|
    ensures Separator(s, e) == Some(n) <==> SeparatedAt(s, e, n)
  {
    SpaceRunSpaces(s, e);
  }

  /** Digits, a colon and digits from the front of `t`, the colon at `d1` and the end at `d2`. */
  predicate ArgRefAt(t: string, d1: nat, d2: nat) {
    0 < d1 < d2 <= |t| && IsNumeral(t[..d1]) && t[d1] == ':' && IsNumeral(t[d1 + 1..d2])
  }

  /**
    What `SEQ_REGEXP` matches at the front of `t`, ending at `n`, stated
    on its own: a quote, a body for that quote, the same quote and a
    separator; or digits, a colon, digits and a separator.
   */
  ghost predicate PatternMatch(t: string, lx: Lexeme, n: nat) {
    match lx
    case Quoted(b) =>
      && |b| + 2 <= |t| && (t[0] == '"' || t[0] == '\'')
      && t[1..|b| + 1] == b && IsBody(b, t[0]) && t[|b| + 1] == t[0]
      && SeparatedAt(t, |b| + 2, n)
    case ArgRef(a, r) =>
      exists d1: nat, d2: nat :: ArgRefAt(t, d1, d2) && SeparatedAt(t, d2, n)
        && a == NatValue(t[..d1]) && r == NatValue(t[d1 + 1..d2])
  }

  lemma MatchQuotedExact(t: string, b: string, n: nat)
    ensures MatchToken(t) == Some((Quoted(b), n)) <==> PatternMatch(t, Quoted(b), n)
  {
    if t != [] && (t[0] == '"' || t[0] == '\'') {
      if |b| + 2 <= |t| {
        QuoteEndAt(t, t[0], 1, |b| + 1);
        SeparatorExact(t, |b| + 2, n);
      }
      if QuoteEnd(t, t[0], 1).Some? {
        var c := QuoteEnd(t, t[0], 1).value;
        QuoteEndAt(t, t[0], 1, c);
        SeparatorExact(t, c + 1, n);
      }
    }
  }

  lemma MatchArgRefExact(t: string, a: nat, r: nat, n: nat)
    ensures MatchToken(t) == Some((ArgRef(a, r), n)) <==> PatternMatch(t, ArgRef(a, r), n)
  {
    if PatternMatch(t, ArgRef(a, r), n) {
      var d1: nat, d2: nat :| ArgRefAt(t, d1, d2) && SeparatedAt(t, d2, n)
        && a == NatValue(t[..d1]) && r == NatValue(t[d1 + 1..d2]);
      PatternArgRef(t, d1, d2, n);
    }
    if MatchToken(t) == Some((ArgRef(a, r), n)) {
      MatchedArgRef(t, a, r, n);
    }
  }

  lemma PatternArgRef(t: string, d1: nat, d2: nat, n: nat)
    requires ArgRefAt(t, d1, d2) && SeparatedAt(t, d2, n)
    ensures MatchToken(t) == Some((ArgRef(NatValue(t[..d1]), NatValue(t[d1 + 1..d2])), n))
  {
    assert t[0] == t[..d1][0];
    assert t[d1 + 1] == t[d1 + 1..d2][0];
    DigitRunNumeral(t, 0, t[..d1]);
    DigitRunNumeral(t, d1 + 1, t[d1 + 1..d2]);
    SeparatorExact(t, d2, n);
    assert t[0..d1] == t[..d1];
  }

  lemma MatchedArgRef(t: string, a: nat, r: nat, n: nat)
    requires MatchToken(t) == Some((ArgRef(a, r), n))
    ensures PatternMatch(t, ArgRef(a, r), n)
  {
    var d1 := DigitRun(t, 0);
    var d2 := DigitRun(t, d1 + 1);
    DigitRunDigits(t, 0);
    DigitRunDigits(t, d1 + 1);
    SeparatorExact(t, d2, n);
    assert t[0..d1] == t[..d1];
    assert ArgRefAt(t, d1, d2);
  }

  /** MatchToken agrees with the pattern on every input: what it matches, and that nothing matches. */
  lemma MatchTokenExact(t: string)
    ensures forall lx: Lexeme, n: nat :: MatchToken(t) == Some((lx, n)) <==> PatternMatch(t, lx, n)
    ensures MatchToken(t).None? <==> forall lx: Lexeme, n: nat :: !PatternMatch(t, lx, n)
  {
    forall lx: Lexeme, n: nat
      ensures MatchToken(t) == Some((lx, n)) <==> PatternMatch(t, lx, n)
    {
      match lx
      case Quoted(b) => MatchQuotedExact(t, b, n);
      case ArgRef(a, r) => MatchArgRefExact(t, a, r, n);
    }
  }

  /** What a backslash followed by `c` stands for in a Python string literal. */
  function EscapeValue(c: char): string {
    match c
    case '\\' => "\\"
    case '\'' => "'"
    case '"' => "\""
    case 'n' => "\n"
    case 't' => "\t"
    case 'r' => "\r"
    case 'a' => "\U{07}"
    case 'b' => "\U{08}"
    case 'f' => "\U{0C}"
    case 'v' => "\U{0B}"
    case _ => ['\\', c]
  }

  /**
    The value of a quoted literal's body, as `eval` gives it; None where
    `eval` rejects it (a raw line feed or carriage return inside the quotes).
   */
  function Unescape(b: string): Option<string> {
    if b == [] then Some([])
    else if b[0] == '\n' || b[0] == '\r' then None
    else if b[0] == '\\' && |b| >= 2 then
      match Unescape(b[2..])
      case None => None
      case Some(rest) => Some(EscapeValue(b[1]) + rest)
    else
      match Unescape(b[1..])
      case None => None
      case Some(rest) => Some([b[0]] + rest)
  }

  /** `eval` for a quoted token, `tuple(map(int, ...))` for an arg:ref one. */
  function Evaluate(lx: Lexeme): Result<Token, Error> {
    match lx
    case ArgRef(a, r) => Ok(Ref(a, r))
    case Quoted(b) =>
      match Unescape(b)
      case None => Err(BadLiteral(b))
      case Some(x) => Ok(Str(x))
  }

  /** `ts` in front of a successful result, an error unchanged. */
  function Prepend(ts: seq<Token>, r: Result<seq<Token>, Error>): Result<seq<Token>, Error> {
    if r.Ok? then Ok(ts + r.value) else r
  }

  /**
    Tokenizing the text `t` from its front: each step matches one token and
    continues after it; the first position where no token matches is an
    error reporting the text that remains from there.
   */
  function Scan(t: string): (r: Result<seq<Token>, Error>)
    ensures t == [] ==> r == Ok([])
    ensures r.Ok? ==> |r.value| <= |t|
    decreases |t|
  {
    if t == [] then Ok([])
    else
      match MatchToken(t)
      case None => Err(NotSequenceToken(t))
      case Some((lx, n)) =>
        match Evaluate(lx)
        case Err(e) => Err(e)
        case Ok(tok) => Prepend([tok], Scan(t[n..]))
  }

  /**
    Scan fails only on text that is not a token or a literal `eval` rejects;
    the first reports the rest of the text from where no token matches.
   */
  lemma {:induction false} ScanErrors(t: string)
    ensures Scan(t).Err? ==> Scan(t).error.NotSequenceToken? || Scan(t).error.BadLiteral?
    ensures Scan(t).Err? && Scan(t).error.NotSequenceToken? ==>
              var rest := Scan(t).error.rest;
              rest != [] && IsSuffix(rest, t) && MatchToken(rest).None?
    decreases |t|
  {
    if t != [] && MatchToken(t).Some? {
      var (lx, n) := MatchToken(t).value;
      if Evaluate(lx).Ok? {
        ScanErrors(t[n..]);
        var after := Scan(t[n..]);
        assert Scan(t) == Prepend([Evaluate(lx).value], after);
        if after.Err? && after.error.NotSequenceToken? {
          SuffixTransitive(after.error.rest, t[n..], t);
        }
      }
    }
  }

  lemma ScanStep(t: string, lx: Lexeme, n: nat, tok: Token)
    requires t != [] && MatchToken(t) == Some((lx, n)) && Evaluate(lx) == Ok(tok)
    ensures Scan(t) == Prepend([tok], Scan(t[n..]))
  {
  }

  lemma ScanNoMatch(t: string)
    requires t != [] && MatchToken(t).None?
    ensures Scan(t) == Err(NotSequenceToken(t))
  {
  }

  lemma ScanBadToken(t: string, lx: Lexeme, n: nat)
    requires t != [] && MatchToken(t) == Some((lx, n)) && Evaluate(lx).Err?
    ensures Scan(t) == Err(Evaluate(lx).error)
  {
  }

  lemma PrependPrepend(a: seq<Token>, b: seq<Token>, r: Result<seq<Token>, Error>)
    ensures Prepend(a, Prepend(b, r)) == Prepend(a + b, r)
  {
    if r.Ok? {
      assert a + (b + r.value) == (a + b) + r.value;
    }
  }

  /**
    One turn of the loop of `read_sequence`: match a token at the front of
    `rest` and evaluate it, giving the token and the length it takes, or the
    error the text there raises.
   */
  method NextToken(rest: string) returns (r: Result<(Token, nat), Error>)
    requires rest != []
    ensures r.Ok? ==> 0 < r.value.1 <= |rest|
    ensures r.Ok? ==> Scan(rest) == Prepend([r.value.0], Scan(rest[r.value.1..]))
    ensures r.Err? ==> Scan(rest) == Err(r.error)
  {
    var m := MatchToken(rest);
    if m.None? {
      ScanNoMatch(rest);
      return Err(NotSequenceToken(rest));
    }
    var lx, n := m.value.0, m.value.1;
    var tok := Evaluate(lx);
    if tok.Err? {
      ScanBadToken(rest, lx, n);
      return Err(tok.error);
    }
    ScanStep(rest, lx, n, tok.value);
    return Ok((tok.value, n));
  }

  // The steps of ReadSequence's loop, about the whole scan `w` held as a value.

  /** The loop invariant of ReadSequence holds before the first token. */
  lemma ScanStart(seqstr: string, w: Result<seq<Token>, Error>)
    requires w == Scan(seqstr)
    ensures w == Prepend([], Scan(seqstr[0..]))
  {
    assert seqstr[0..] == seqstr;
    assert w.Ok? ==> [] + w.value == w.value;
  }

  /** An error at the cursor is the error of the whole scan. */
  lemma ScanAbort(rest: string, tokens: seq<Token>, e: Error, w: Result<seq<Token>, Error>)
    requires w == Prepend(tokens, Scan(rest))
    requires Scan(rest) == Err(e)
    ensures w == Err(e)
  {
  }

  /** With the cursor at the end, the tokens collected are the whole scan. */
  lemma ScanFinish(seqstr: string, pos: nat, tokens: seq<Token>, w: Result<seq<Token>, Error>)
    requires pos == |seqstr|
    requires w == Prepend(tokens, Scan(seqstr[pos..]))
    ensures w == Ok(tokens)
  {
    assert seqstr[pos..] == [];
    assert tokens + [] == tokens;
  }

  /**
    `read_sequence(seqstr)`: scan with a cursor that only moves forward,
    collecting the tokens; stop at the first text that is not a token.
   */
  method ReadSequence(seqstr: string) returns (r: Result<seq<Token>, Error>)
    ensures r == Scan(seqstr)
  {
    ghost var whole := Scan(seqstr);
    var tokens: seq<Token> := [];
    var pos := 0;
    ghost var rest := seqstr;
    ScanStart(seqstr, whole);
    assert seqstr[0..] == seqstr;
    while pos < |seqstr|
      invariant pos <= |seqstr| && rest == seqstr[pos..]
      invariant whole == Prepend(tokens, Scan(rest))
      decreases |seqstr| - pos
    {
      var step := NextToken(seqstr[pos..]);
      if step.Err? {
        ScanAbort(rest, tokens, step.error, whole);
        return Err(step.error);
      }
      var tok, n := step.value.0, step.value.1;
      PrependPrepend(tokens, [tok], Scan(rest[n..]));
      tokens := tokens + [tok];
      rest := rest[n..];
      pos := pos + n;
      assert rest == seqstr[pos..];
    }
    ScanFinish(seqstr, pos, tokens, whole);
    return Ok(tokens);
  }

  // A reference renderer for token lists, the inverse of Scan.

  function EscapeChar(c: char): string {
    if c == '\\' then "\\\\"
    else if c == '"' then "\\\""
    else if c == '\n' then "\\n"
    else if c == '\r' then "\\r"
    else [c]
  }

  /** The body of a double-quoted literal whose value is `x`. */
  function Escape(x: string): (e: string)
    ensures |e| >= |x|
  {
    if x == [] then [] else EscapeChar(x[0]) + Escape(x[1..])
  }

  function RenderToken(t: Token): string {
    match t
    case Str(x) => "\"" + Escape(x) + "\""
    case Ref(a, r) => NatToString(a) + ":" + NatToString(r)
  }

  /** Tokens separated by single spaces, as a writer lays out a sequence line. */
  function Render(ts: seq<Token>): string {
    if ts == [] then ""
    else if |ts| == 1 then RenderToken(ts[0])
    else RenderToken(ts[0]) + " " + Render(ts[1..])
  }

  lemma {:induction false} UnescapeEscape(x: string)
    ensures Unescape(Escape(x)) == Some(x)
  {
    if x != [] {
      var e := Escape(x);
      UnescapeEscape(x[1..]);
      var c := x[0];
      if c == '\\' || c == '"' || c == '\n' || c == '\r' {
        assert e[0] == '\\' && e[2..] == Escape(x[1..]);
        assert EscapeValue(e[1]) == [c];
      } else {
        assert e[1..] == Escape(x[1..]);
      }
      assert [c] + x[1..] == x;
    }
  }

  lemma EscapeCharShape(c: char)
    ensures |EscapeChar(c)| == 1 || |EscapeChar(c)| == 2
    ensures |EscapeChar(c)| == 1 ==> EscapeChar(c)[0] == c && c != '\\' && c != '"'
    ensures |EscapeChar(c)| == 2 ==> EscapeChar(c)[0] == '\\' && EscapeChar(c)[1] != '\n'
  {
  }

  /** The escape of `x` at `i` of `s`: its first character's escape, then the escape of the rest. */
  lemma EscapeFront(s: string, i: nat, x: string)
    requires x != []
    requires i + |Escape(x)| <= |s| && s[i..i + |Escape(x)|] == Escape(x)
    ensures var k := |EscapeChar(x[0])|;
            && |Escape(x)| == k + |Escape(x[1..])|
            && s[i + k..i + |Escape(x)|] == Escape(x[1..])
            && (k == 1 ==> s[i] == x[0] && s[i] != '\\' && s[i] != '"')
            && (k == 2 ==> s[i] == '\\' && s[i + 1] != '\n')
  {
    var e, h, t := Escape(x), EscapeChar(x[0]), Escape(x[1..]);
    assert e == h + t;
    assert |e| == |h| + |t|;
    EscapeCharFront(s, i, x[0], t);
  }

  /** The escape of `c` followed by `t` at `i` of `s`. */
  lemma EscapeCharFront(s: string, i: nat, c: char, t: string)
    requires var e := EscapeChar(c) + t; i + |e| <= |s| && s[i..i + |e|] == e
    ensures var k := |EscapeChar(c)|;
            && s[i + k..i + k + |t|] == t
            && (k == 1 ==> s[i] == c && s[i] != '\\' && s[i] != '"')
            && (k == 2 ==> s[i] == '\\' && s[i + 1] != '\n')
  {
    EscapeCharShape(c);
    SliceOfConcat(s, i, EscapeChar(c), t);
  }

  /** A slice of `s` that is `h + t` has `h`'s first two characters at its front and `t` after `h`. */
  lemma SliceOfConcat(s: string, i: nat, h: string, t: string)
    requires 0 < |h| && i + |h + t| <= |s| && s[i..i + |h + t|] == h + t
    ensures s[i + |h|..i + |h + t|] == t
    ensures s[i] == h[0]
    ensures |h| >= 2 ==> s[i + 1] == h[1]
  {
    assert s[i] == s[i..i + |h + t|][0];
    if |h| >= 2 {
      assert s[i + 1] == s[i..i + |h + t|][1];
    }
    assert s[i + |h|..i + |h + t|] == s[i..i + |h + t|][|h|..];
  }

  lemma {:induction false} QuoteEndEscape(s: string, i: nat, x: string)
    requires i + |Escape(x)| < |s|
    requires s[i..i + |Escape(x)|] == Escape(x)
    requires s[i + |Escape(x)|] == '"'
    ensures QuoteEnd(s, '"', i) == Some(i + |Escape(x)|)
    decreases |x|
  {
    if x != [] {
      var k := |EscapeChar(x[0])|;
      EscapeFront(s, i, x);
      QuoteEndEscape(s, i + k, x[1..]);
      QuoteEndSkips(s, i, k);
    }
  }

  /** An ordinary character, or a backslash and the character it escapes, does not end a quoted literal. */
  lemma QuoteEndSkips(s: string, i: nat, k: nat)
    requires i + k <= |s| && (k == 1 || k == 2)
    requires k == 1 ==> s[i] != '\\' && s[i] != '"'
    requires k == 2 ==> s[i] == '\\' && s[i + 1] != '\n'
    ensures QuoteEnd(s, '"', i) == QuoteEnd(s, '"', i + k)
  {
  }

  lemma {:induction false} DigitRunNumeral(s: string, i: nat, d: string)
    requires IsNumeral(d) || d == []
    requires i + |d| <= |s| && s[i..i + |d|] == d
    requires i + |d| < |s| ==> !IsDigit(s[i + |d|])
    ensures DigitRun(s, i) == i + |d|
    decreases |d|
  {
    if d != [] {
      assert s[i] == d[0];
      assert s[i + 1..i + |d|] == d[1..];
      DigitRunNumeral(s, i + 1, d[1..]);
    }
  }

  /** What may follow a rendered token: nothing, or one space and then a non-space. */
  predicate Follows(tail: string) {
    tail == [] || (|tail| > 1 && tail[0] == ' ' && !IsSpace(tail[1]))
  }

  /** Where scanning resumes in a tail that Follows. */
  function After(tail: string): string {
    if tail == [] then [] else tail[1..]
  }

  /** The length a token of width `w` takes in front of `tail`, the separating space included. */
  function Taken(w: string, tail: string): nat {
    |w| + if tail == [] then 0 else 1
  }

  function LexemeOf(t: Token): Lexeme {
    match t
    case Str(x) => Quoted(Escape(x))
    case Ref(a, r) => ArgRef(a, r)
  }

  lemma SeparatorFollows(s: string, e: nat)
    requires e <= |s| && Follows(s[e..])
    ensures Separator(s, e) == Some(if e == |s| then e else e + 1)
  {
    if e < |s| {
      assert s[e] == s[e..][0];
      assert e + 1 < |s| && s[e + 1] == s[e..][1];
      assert SpaceRun(s, e + 1) == e + 1;
    }
  }

  lemma TakenAfter(w: string, tail: string)
    requires Follows(tail)
    ensures Taken(w, tail) <= |w + tail|
    ensures (w + tail)[Taken(w, tail)..] == After(tail)
    ensures Separator(w + tail, |w|) == Some(Taken(w, tail))
  {
    var u := w + tail;
    assert u[|w|..] == tail;
    SeparatorFollows(u, |w|);
  }

  /** The parts of a rendered quoted literal that the matcher looks at. */
  lemma QuotedPiecesOf(x: string, e: string, w: string, tail: string)
    requires e == Escape(x) && w == "\"" + e + "\"" && Follows(tail)
    ensures var u := w + tail;
            && |u| > 1 + |e| && u[0] == '"' && u[1..1 + |e|] == e
            && QuoteEnd(u, '"', 1) == Some(1 + |e|)
            && Separator(u, 2 + |e|) == Some(Taken(w, tail))
  {
    QuotedFrame(e, tail);
    QuoteEndEscape(w + tail, 1, x);
    TakenAfter(w, tail);
  }

  /** Where the quotes and the escaped text sit in a quoted literal followed by a tail. */
  lemma QuotedFrame(e: string, tail: string)
    ensures var u := "\"" + e + "\"" + tail;
            && |u| > 1 + |e| && u[0] == '"' && u[1..1 + |e|] == e && u[1 + |e|] == '"'
  {
  }

  lemma MatchQuoted(x: string, tail: string)
    requires Follows(tail)
    ensures MatchToken(RenderToken(Str(x)) + tail) == Some((Quoted(Escape(x)), Taken(RenderToken(Str(x)), tail)))
  {
    QuotedPiecesOf(x, Escape(x), RenderToken(Str(x)), tail);
  }

  /** The parts of a rendered argument reference that the matcher looks at. */
  lemma ArgRefPieces(a: nat, r: nat, tail: string)
    requires Follows(tail)
    ensures var w, da := RenderToken(Ref(a, r)), NatToString(a);
            var u := w + tail;
            && |da| + 1 < |u| && IsDigit(u[0]) && DigitRun(u, 0) == |da|
            && u[|da|] == ':' && IsDigit(u[|da| + 1])
            && DigitRun(u, |da| + 1) == |w|
            && Separator(u, |w|) == Some(Taken(w, tail))
            && NatValue(u[0..|da|]) == a && NatValue(u[|da| + 1..|w|]) == r
  {
    var da, db := NatToString(a), NatToString(r);
    assert RenderToken(Ref(a, r)) == da + ":" + db;
    NumeralPairPieces(da, db, tail);
    NatToStringRoundTrip(a);
    NatToStringRoundTrip(r);
  }

  /** Two numerals joined by a colon, in front of a tail that Follows. */
  lemma NumeralPairPieces(da: string, db: string, tail: string)
    requires IsNumeral(da) && IsNumeral(db) && Follows(tail)
    ensures var w := da + ":" + db;
            var u := w + tail;
            && |da| + 1 < |u| && IsDigit(u[0]) && DigitRun(u, 0) == |da|
            && u[|da|] == ':' && IsDigit(u[|da| + 1])
            && DigitRun(u, |da| + 1) == |w|
            && Separator(u, |w|) == Some(Taken(w, tail))
            && u[0..|da|] == da && u[|da| + 1..|w|] == db
  {
    var w := da + ":" + db;
    var u := w + tail;
    assert u[0] == da[0];
    assert u[0..|da|] == da;
    DigitRunNumeral(u, 0, da);
    assert u[|da|] == ':';
    assert u[|da| + 1..|w|] == db;
    assert u[|da| + 1] == db[0];
    assert |w| < |u| ==> u[|w|] == tail[0];
    DigitRunNumeral(u, |da| + 1, db);
    TakenAfter(w, tail);
  }

  lemma MatchArgRef(a: nat, r: nat, tail: string)
    requires Follows(tail)
    ensures MatchToken(RenderToken(Ref(a, r)) + tail) == Some((ArgRef(a, r), Taken(RenderToken(Ref(a, r)), tail)))
  {
    ArgRefPieces(a, r, tail);
  }

  lemma MatchRendered(tok: Token, tail: string)
    requires Follows(tail)
    ensures MatchToken(RenderToken(tok) + tail) == Some((LexemeOf(tok), Taken(RenderToken(tok), tail)))
    ensures Evaluate(LexemeOf(tok)) == Ok(tok)
  {
    if tok.Str? {
      MatchQuoted(tok.text, tail);
      UnescapeEscape(tok.text);
    } else {
      MatchArgRef(tok.arg, tok.ref, tail);
    }
  }

  lemma RenderStart(ts: seq<Token>)
    requires ts != []
    ensures |Render(ts)| > 0 && !IsSpace(Render(ts)[0])
  {
    var w := RenderToken(ts[0]);
    assert Render(ts)[0] == w[0];
  }

  /** One rendered token in front of a tail that Follows: Scan takes the token and goes on after it. */
  lemma ScanRenderedToken(tok: Token, tail: string)
    requires Follows(tail)
    ensures Scan(RenderToken(tok) + tail) == Prepend([tok], Scan(After(tail)))
  {
    var w := RenderToken(tok);
    MatchRendered(tok, tail);
    TakenAfter(w, tail);
    ScanStep(w + tail, LexemeOf(tok), Taken(w, tail), tok);
  }

  /** Tokenizing a rendered token list gives back exactly that list. */
  lemma {:induction false} ScanRender(ts: seq<Token>)
    ensures Scan(Render(ts)) == Ok(ts)
  {
    if |ts| == 1 {
      assert Render(ts) == RenderToken(ts[0]) + "";
      ScanRenderedToken(ts[0], "");
      assert [ts[0]] + [] == ts;
    } else if |ts| > 1 {
      var r := Render(ts[1..]);
      RenderMore(ts);
      ScanRenderedToken(ts[0], " " + r);
      assert After(" " + r) == r;
      ScanRender(ts[1..]);
      assert [ts[0]] + ts[1..] == ts;
    }
  }

  /** A rendered list of two or more tokens is its first token, a space and the rest. */
  lemma RenderMore(ts: seq<Token>)
    requires |ts| > 1
    ensures Render(ts) == RenderToken(ts[0]) + (" " + Render(ts[1..]))
    ensures Follows(" " + Render(ts[1..]))
  {
    RenderStart(ts[1..]);
    SpaceBefore(RenderToken(ts[0]), Render(ts[1..]));
  }

  lemma SpaceBefore(w: string, r: string)
    requires |r| > 0 && !IsSpace(r[0])
    ensures w + " " + r == w + (" " + r)
    ensures Follows(" " + r)
  {
    assert (" " + r)[1] == r[0];
  }
}
