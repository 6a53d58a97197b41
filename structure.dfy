/**
  The line classifier and the structural parsers: how one input line is
  recognised as a comment, a pragma or a declaration, and how the payload
  of a rule, a linearization and a score is read.
 */
module Structure {
  import opened Wrappers
  import opened Errors
  import opened Lexing

  // The keywords of the format.
  const PragmaMarker: char := ':'
  const RuleMarker: string := ":"
  const RuleArrow: string := "<-"
  const LinearizationMarker: string := "="
  const SequenceMarker: string := "->"
  const CommentChars: string := "#%/-;"

  /** A phrase-structure rule `lhs <- rhs...`. */
  datatype Rule = Rule(lhs: string, rhs: seq<string>)

  /** A score as written: an integer, or a floating-point literal kept as its text. */
  datatype Score = IntScore(value: int) | FloatScore(text: string)

  /** `k` is the position of the first string in `xs` that is not an identifier. */
  predicate FirstNonIdentifierAt(xs: seq<string>, k: int) {
    && 0 <= k < |xs|
    && !IsIdentifier(xs[k])
    && forall j :: 0 <= j < k ==> IsIdentifier(xs[j])
  }

  /** The check loop `for x in xs: if not is_identifier(x): raise ...`. */
  function FirstNonIdentifier(xs: seq<string>): (r: Option<nat>)
    ensures r.None? <==> forall i :: 0 <= i < |xs| ==> IsIdentifier(xs[i])
    ensures r.Some? ==> FirstNonIdentifierAt(xs, r.value)
  {
    if xs == [] then None
    else if !IsIdentifier(xs[0]) then Some(0)
    else
      match FirstNonIdentifier(xs[1..])
      case None => None
      case Some(k) => Some(k + 1)
  }

  /**
    What `read_rule(rulestr)` returns or raises: the arrow must be the
    second field and is dropped; every other field must be an identifier;
    the first is the left-hand side and the rest, in order, the right-hand side.
   */
  function ParseRule(rulestr: string): (r: Result<Rule, Error>)
    ensures var f := SplitAll(rulestr);
            r.Ok? <==> && |f| >= 2 && f[1] == RuleArrow
                       && forall i :: 0 <= i < |f| && i != 1 ==> IsIdentifier(f[i])
    ensures var f := SplitAll(rulestr);
            r.Ok? ==> r.value == Rule(f[0], f[2..])
    ensures var f := SplitAll(rulestr);
            (|f| <= 1 || f[1] != RuleArrow) ==> r == Err(MissingArrow)
    ensures var f := SplitAll(rulestr);
            |f| >= 2 && f[1] == RuleArrow && r.Err? ==>
              exists k :: FirstNonIdentifierAt([f[0]] + f[2..], k) && r.error == NotIdentifier(([f[0]] + f[2..])[k])
  {
    var f := SplitAll(rulestr);
    if |f| <= 1 || f[1] != RuleArrow then Err(MissingArrow)
    else
      var g := [f[0]] + f[2..];
      match FirstNonIdentifier(g)
      case Some(k) => Err(NotIdentifier(g[k]))
      case None =>
        assert forall i :: 0 <= i < |f| && i != 1 ==> IsIdentifier(f[i]) by {
          forall i | 0 <= i < |f| && i != 1 ensures IsIdentifier(f[i]) {
            assert f[i] == g[if i == 0 then 0 else i - 1];
          }
        }
        Ok(Rule(f[0], f[2..]))
  }

  /**
    `read_rule(rulestr)` as the source runs it: split, check for the arrow,
    pop it, check the identifiers, pop the left-hand side.
   */
  method ReadRule(rulestr: string) returns (r: Result<Rule, Error>)
    ensures r == ParseRule(rulestr)
  {
    var nonterms := SplitAll(rulestr);
    if |nonterms| <= 1 || nonterms[1] != RuleArrow {
      return Err(MissingArrow);
    }
    nonterms := [nonterms[0]] + nonterms[2..];
    var bad := FirstNonIdentifier(nonterms);
    if bad.Some? {
      return Err(NotIdentifier(nonterms[bad.value]));
    }
    var lhs := nonterms[0];
    nonterms := nonterms[1..];
    return Ok(Rule(lhs, nonterms));
  }

  /** `read_linearization(linstr)`: the fields, each of which must be an identifier. */
  function ReadLinearization(linstr: string): (r: Result<seq<string>, Error>)
    ensures r.Ok? <==> forall i :: 0 <= i < |SplitAll(linstr)| ==> IsIdentifier(SplitAll(linstr)[i])
    ensures r.Ok? ==> r.value == SplitAll(linstr)
    ensures r.Err? ==> exists k :: FirstNonIdentifierAt(SplitAll(linstr), k) && r.error == NotIdentifier(SplitAll(linstr)[k])
  {
    var seqs := SplitAll(linstr);
    match FirstNonIdentifier(seqs)
    case Some(k) => Err(NotIdentifier(seqs[k]))
    case None => Ok(seqs)
  }

  predicate IsSign(c: char) {
    c == '+' || c == '-'
  }

  /** `int(s)` for ASCII text: an optional sign and one or more digits. */
  function ParseInt(s: string): (r: Option<int>)
    ensures r.Some? <==> IsNumeral(s) || (|s| > 0 && IsSign(s[0]) && IsNumeral(s[1..]))
  {
    if IsNumeral(s) then Some(NatValue(s))
    else if |s| > 0 && IsSign(s[0]) && IsNumeral(s[1..]) then
      var n: int := NatValue(s[1..]);
      Some(if s[0] == '-' then -n else n)
    else None
  }

  /** `str(i)` */
  function IntToString(i: int): string {
    if i < 0 then "-" + NatToString(-i) else NatToString(i)
  }

  lemma ParseIntToString(i: int)
    ensures ParseInt(IntToString(i)) == Some(i)
  {
    NatToStringRoundTrip(if i < 0 then -i else i);
    if i < 0 {
      assert IntToString(i)[1..] == NatToString(-i);
    }
  }

  function ToLower(c: char): char {
    if 'A' <= c <= 'Z' then (c as int + 32) as char else c
  }

  function LowerCase(s: string): (r: string)
    ensures |r| == |s|
  {
    if s == [] then [] else [ToLower(s[0])] + LowerCase(s[1..])
  }

  /** An optional exponent: empty, or `e`/`E`, an optional sign and digits. */
  predicate IsExponent(s: string) {
    || s == []
    || (|s| >= 2 && (s[0] == 'e' || s[0] == 'E') &&
        (IsNumeral(s[1..]) || (IsSign(s[1]) && IsNumeral(s[2..]))))
  }

  /** Digits with at most one decimal point and at least one digit, then an exponent. */
  predicate IsDecimal(s: string) {
    exists i, j :: 0 <= i <= j <= |s| && IsDecimalMantissa(s[..i], s[i..j]) && IsExponent(s[j..])
  }

  predicate IsDecimalMantissa(ip: string, fp: string) {
    && (forall k :: 0 <= k < |ip| ==> IsDigit(ip[k]))
    && (fp == [] || (fp[0] == '.' && forall k :: 1 <= k < |fp| ==> IsDigit(fp[k])))
    && (|ip| > 0 || |fp| > 1)
  }

  /** `float(s)` for ASCII text: a signed decimal literal, `inf`, `infinity` or `nan`. */
  predicate IsFloatLiteral(s: string) {
    var u := if |s| > 0 && IsSign(s[0]) then s[1..] else s;
    || IsDecimal(u)
    || LowerCase(u) in {"inf", "infinity", "nan"}
  }

  /** The score in a score line's second field: `int` first, then `float`. */
  function ParseScore(keyword: string): (r: Result<Score, Error>)
    ensures r.Ok? <==> ParseInt(keyword).Some? || IsFloatLiteral(keyword)
    ensures ParseInt(keyword).Some? ==> r == Ok(IntScore(ParseInt(keyword).value))
    ensures ParseInt(keyword).None? && IsFloatLiteral(keyword) ==> r == Ok(FloatScore(keyword))
    ensures r.Err? ==> r.error == BadScore(keyword)
  {
    match ParseInt(keyword)
    case Some(i) => Ok(IntScore(i))
    case None => if IsFloatLiteral(keyword) then Ok(FloatScore(keyword)) else Err(BadScore(keyword))
  }

  /** What a line is, before its declaration is checked against the grammar. */
  datatype LineKind =
    | Skip
    | Pragma(name: Option<string>, info: string)
    | Decl(ident: string, keyword: string, rest: string)

  /**
    The first steps of `read_grammar`'s loop body: blank and comment lines
    are skipped; a line starting with the pragma marker is a pragma whose
    name is absent when whitespace follows the marker; any other line is
    cut into identifier, keyword and the rest.
   */
  function ClassifyLine(line: string): (k: LineKind)
    ensures k.Skip? <==> TrimLeft(line) == [] || TrimLeft(line)[0] in CommentChars
    ensures k.Pragma? <==> TrimLeft(line) != [] && TrimLeft(line)[0] == PragmaMarker
    ensures k.Pragma? ==> (k.name.None? <==> |TrimLeft(line)| >= 2 && IsSpace(TrimLeft(line)[1]))
    ensures k.Pragma? ==> k.info == [] || (!IsSpace(k.info[0]) && !IsSpace(k.info[|k.info| - 1]))
    ensures k.Pragma? && k.name.Some? ==> k.name.value == [] || IsWord(k.name.value)
    ensures k.Decl? ==> IsWord(k.ident) && (k.keyword == [] || IsWord(k.keyword))
    ensures k.Decl? ==> k.rest == [] || IsSuffix(k.rest, line)
  {
    var rest := TrimLeft(line);
    if rest == [] || rest[0] in CommentChars then Skip
    else if rest[0] == PragmaMarker then
      if |rest| >= 2 && IsSpace(rest[1]) then Pragma(None, Strip(rest[1..]))
      else
        var p := WhitespaceSplit(rest[1..], 1);
        SplitMaxWords(rest[1..], 1);
        Pragma(Some(p[0]), Strip(p[1]))
    else
      var f := WhitespaceSplit(rest, 2);
      SplitMaxWords(rest, 2);
      TrimLeftCuts(line);
      ghost var parts := SplitMax(rest, 2);
      assert |parts| == 3 ==> IsSuffix(f[2], line) by {
        if |parts| == 3 {
          SplitMaxRemainder(rest, 2);
          SuffixTransitive(f[2], rest, line);
        }
      }
      Decl(f[0], f[1], f[2])
  }

  /** An unnamed pragma's information is the rest of the line after the marker, stripped. */
  lemma ClassifyUnnamedInfo(line: string)
    ensures var k := ClassifyLine(line);
            k.Pragma? && k.name.None? ==> k.info == Strip(TrimLeft(line)[1..])
  {
  }

  /**
    A named pragma's line is, after the marker, its name, whitespace, its
    information and whitespace; the name is the whole first word.
   */
  lemma ClassifyNamedLayout(line: string) returns (w1: string, w2: string)
    requires ClassifyLine(line).Pragma? && ClassifyLine(line).name.Some?
    ensures var k := ClassifyLine(line);
            && IsBlank(w1) && IsBlank(w2)
            && TrimLeft(line)[1..] == k.name.value + w1 + k.info + w2
            && (k.info != [] ==> w1 != [])
  {
    var u := TrimLeft(line)[1..];
    assert u == [] || !IsSpace(u[0]);
    w1, w2 := NamedLayout(u, WhitespaceSplit(u, 1));
  }

  lemma NamedLayout(u: string, f: seq<string>) returns (w1: string, w2: string)
    requires u == [] || !IsSpace(u[0])
    requires f == WhitespaceSplit(u, 1)
    ensures IsBlank(w1) && IsBlank(w2) && u == f[0] + w1 + Strip(f[1]) + w2
    ensures Strip(f[1]) != [] ==> w1 != []
  {
    var p := SplitMax(u, 1);
    var gs := SplitMaxLayout(u, 1);
    if u != [] {
      TrimLeftNoSpace(u);
    }
    if |p| == 2 {
      Interleave2(gs, p);
      SplitMaxRemainder(u, 1);
      w1 := gs[1];
      w2 := StripFront(p[1]);
    } else if |p| == 1 {
      Interleave1(gs, p);
      w1, w2 := gs[1], [];
    } else {
      w1, w2 := [], [];
    }
  }

  /**
    A declaration line is, after its leading whitespace, the identifier,
    whitespace, the keyword, whitespace and the rest, which starts with a
    non-space; no piece takes part of a neighbouring word.
   */
  lemma ClassifyDeclLayout(line: string) returns (w1: string, w2: string)
    requires ClassifyLine(line).Decl?
    ensures var k := ClassifyLine(line);
            && IsBlank(w1) && IsBlank(w2)
            && TrimLeft(line) == k.ident + w1 + k.keyword + w2 + k.rest
            && (k.keyword != [] ==> w1 != [])
            && (k.rest != [] ==> w2 != [] && !IsSpace(k.rest[0]))
  {
    var u := TrimLeft(line);
    var p := SplitMax(u, 2);
    var gs := SplitMaxLayout(u, 2);
    TrimLeftNoSpace(u);
    if |p| == 3 {
      Interleave3(gs, p);
      SplitMaxRemainder(u, 2);
      w1, w2 := gs[1], gs[2];
    } else if |p| == 2 {
      Interleave2(gs, p);
      w1, w2 := gs[1], gs[2];
    } else if |p| == 1 {
      Interleave1(gs, p);
      w1, w2 := gs[1], [];
    } else {
      w1, w2 := [], [];
      assert false;
    }
  }
}
