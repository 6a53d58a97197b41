/**
  `read_grammar`: the single pass over the lines, as a specification (a
  fold of the line steps) and as an assembler object whose methods update
  its eight dictionaries the way the source's loop body does.
 */
module Reading {
  import opened Wrappers
  import opened OrderedMaps
  import opened Errors
  import opened Lexing
  import opened Sequences
  import opened Structure
  import opened Arities
  import opened Model
  import opened Steps
  import opened Consistency
  import opened Validation

  /** The lines read one after the other; the first rejected line aborts the read. */
  function ReadLines(t: Tables, lines: seq<string>): (r: Result<Tables, Error>)
    requires Consistent(t)
    ensures r.Ok? ==> Consistent(r.value)
    decreases |lines|
  {
    if lines == [] then Ok(t)
    else
      match LineStep(t, lines[0])
      case Err(e) => Err(e)
      case Ok(t1) =>
        LineStepConsistent(t, lines[0]);
        ReadLines(t1, lines[1..])
  }

  /** Reading `a + b` is reading `a` and then, if that succeeded, `b`. */
  lemma {:induction false} ReadLinesAppend(t: Tables, a: seq<string>, b: seq<string>)
    requires Consistent(t)
    ensures ReadLines(t, a + b) == match ReadLines(t, a) case Err(e) => Err(e) case Ok(u) => ReadLines(u, b)
    decreases |a|
  {
    if a != [] {
      assert (a + b)[0] == a[0];
      assert (a + b)[1..] == a[1..] + b;
      if LineStep(t, a[0]).Ok? {
        LineStepConsistent(t, a[0]);
        ReadLinesAppend(LineStep(t, a[0]).value, a[1..], b);
      }
    } else {
      assert a + b == b;
    }
  }

  /** A line that is rejected after the lines before it were accepted makes the whole read fail with its error. */
  lemma {:induction false} RejectedLineAborts(lines: seq<string>, k: nat)
    requires k < |lines|
    requires ReadLines(EmptyTables(), lines[..k]).Ok?
    requires LineStep(ReadLines(EmptyTables(), lines[..k]).value, lines[k]).Err?
    ensures ReadLines(EmptyTables(), lines) == Err(LineStep(ReadLines(EmptyTables(), lines[..k]).value, lines[k]).error)
  {
    EmptyConsistent();
    assert lines == lines[..k] + lines[k..];
    ReadLinesAppend(EmptyTables(), lines[..k], lines[k..]);
    assert lines[k..][0] == lines[k];
  }

  /** A line accepted after the lines before it extends the read by one step. */
  lemma {:induction false} AcceptedLineExtends(lines: seq<string>, k: nat, t: Tables, u: Tables)
    requires k < |lines| && Consistent(t)
    requires ReadLines(EmptyTables(), lines[..k]) == Ok(t)
    requires LineStep(t, lines[k]) == Ok(u)
    ensures ReadLines(EmptyTables(), lines[..k + 1]) == Ok(u)
  {
    EmptyConsistent();
    PrefixStep(lines, k);
    ReadLinesThen(EmptyTables(), lines[..k], [lines[k]], t);
    ReadLinesOne(t, lines[k], u);
  }

  lemma PrefixStep(lines: seq<string>, k: nat)
    requires k < |lines|
    ensures lines[..k + 1] == lines[..k] + [lines[k]]
  {
  }

  /** Once `a` has been read to `u`, reading `a + b` is reading `b` from `u`. */
  lemma ReadLinesThen(t: Tables, a: seq<string>, b: seq<string>, u: Tables)
    requires Consistent(t) && ReadLines(t, a) == Ok(u)
    ensures ReadLines(t, a + b) == ReadLines(u, b)
  {
    ReadLinesAppend(t, a, b);
  }

  /** Reading one accepted line is that line's step. */
  lemma {:induction false} ReadLinesOne(t: Tables, line: string, u: Tables)
    requires Consistent(t) && LineStep(t, line) == Ok(u)
    ensures ReadLines(t, [line]) == Ok(u)
  {
    LineStepConsistent(t, line);
    assert [line][1..] == [];
    assert ReadLines(u, []) == Ok(u);
  }

  /** Arity agreement of a returned grammar: every rule of a linearized function has the linearization's arity. */
  ghost predicate GrammarAgrees(g: Grammar) {
    forall f :: f in g.functions.vals && f in g.linearizations.vals ==>
      RulesHaveArity(g.nonterms, g.functions.vals[f], |g.linearizations.vals[f]|)
  }

  /** Every symbol a returned grammar's rules and linearizations use is registered. */
  ghost predicate GrammarRegistered(g: Grammar) {
    && (forall f :: f in g.functions.vals ==> RulesRegistered(g.nonterms, g.functions.vals[f]))
    && (forall f :: f in g.linearizations.vals ==> LinRegistered(g.sequences, g.linearizations.vals[f]))
  }

  /**
    `read_grammar(lines, validate)`: the grammar and, when asked for, the
    warnings of the deferred sweep; or the error of the first rejected line.
   */
  function ReadGrammarOutcome(lines: seq<string>, validate: bool): (r: Result<(Grammar, seq<Warning>), Error>)
    ensures r.Ok? ==> GrammarAgrees(r.value.0) && GrammarRegistered(r.value.0)
    ensures r.Ok? ==> forall w :: w in r.value.1 ==> !w.ArityDisagrees?
    ensures r.Ok? && !validate ==> r.value.1 == []
    ensures r.Err? <==> ReadLines(EmptyTables(), lines).Err?
  {
    EmptyConsistent();
    match ReadLines(EmptyTables(), lines)
    case Err(e) => Err(e)
    case Ok(t) =>
      ConsistentNoArityWarnings(t);
      assert GrammarAgrees(GrammarOf(t)) by {
        forall f | f in t.functions.vals && f in t.linearizations.vals
          ensures RulesHaveArity(t.nonterms, t.functions.vals[f], |t.linearizations.vals[f]|)
        {
          assert RulesHaveArity(t.nonterms, t.functions.vals[f], t.funArities[f]);
        }
      }
      Ok((GrammarOf(t), if validate then Validate(t) else []))
  }

  /** The assembler: the eight dictionaries of `read_grammar` as fields. */
  class GrammarReader {
    var pragmas: OMap<Option<string>, seq<string>>
    var functions: OMap<string, seq<Rule>>
    var linearizations: OMap<string, seq<string>>
    var sequences: OMap<string, Option<seq<Token>>>
    var scores: OMap<string, Score>
    var nonterms: Nonterms
    var funArities: map<string, nat>
    var seqArities: map<string, ArgMap>

    function Tables(): Tables
      reads this
    {
      Model.Tables(pragmas, functions, linearizations, sequences, scores, nonterms, funArities, seqArities)
    }

    ghost predicate Valid()
      reads this
    {
      Consistent(Tables())
    }

    constructor ()
      ensures Valid() && Tables() == EmptyTables()
    {
      pragmas, functions, linearizations := Empty(), Empty(), Empty();
      sequences, scores, nonterms := Empty(), Empty(), Empty();
      funArities, seqArities := map[], map[];
      new;
      EmptyConsistent();
    }

    /** `pragmas.setdefault(pragma, []).append(info)` */
    method AddPragma(name: Option<string>, info: string)
      requires Valid()
      modifies this
      ensures Valid() && Tables() == PragmaStep(old(Tables()), name, info)
    {
      pragmas := pragmas.Put(name, pragmas.Get(name).GetOr([]) + [info]);
    }

    /** The `for r in rhs` loop: register each symbol, then check it against the functions and sequences. */
    method RegisterSymbols(rhs: seq<string>) returns (err: Option<Error>)
      requires nonterms.Valid()
      modifies this
      ensures err.None? ==> RegisterRhs(old(Tables()), rhs) == Ok(Tables())
      ensures err.Some? ==> RegisterRhs(old(Tables()), rhs) == Err(err.value)
    {
      ghost var t := Tables();
      ghost var whole := RegisterRhs(t, rhs);
      ghost var rest := rhs;
      var i := 0;
      while i < |rhs|
        invariant 0 <= i <= |rhs| && rest == rhs[i..]
        invariant nonterms.Valid()
        invariant Tables() == t.(nonterms := nonterms)
        invariant whole == RegisterRhs(Tables(), rest)
      {
        var r := rhs[i];
        ghost var before := Tables();
        RegisterRhsUnfold(before, rest);
        nonterms := nonterms.SetDefault(r, None);
        assert Tables() == before.(nonterms := before.nonterms.SetDefault(r, None));
        if r in linearizations.vals || r in functions.vals || r in sequences.vals {
          return Some(NonterminalClash(r));
        }
        rest := rest[1..];
        i := i + 1;
        assert rest == rhs[i..];
      }
      return None;
    }

    /** The rule branch: record the rule, propagate a known arity, register and check the symbols. */
    method AddRule(ident: string, rule: Rule) returns (err: Option<Error>)
      requires Valid()
      modifies this
      ensures err.None? ==> Valid() && RuleStep(old(Tables()), ident, rule) == Ok(Tables())
      ensures err.Some? ==> RuleStep(old(Tables()), ident, rule) == Err(err.value)
    {
      ghost var t := Tables();
      functions := functions.Put(ident, functions.Get(ident).GetOr([]) + [rule]);
      var lhsArity := Arity(nonterms, rule.lhs);
      if ident in funArities {
        var funArity := funArities[ident];
        if lhsArity.None? {
          nonterms := nonterms.Put(rule.lhs, Some(funArity));
        } else if lhsArity.value != funArity {
          return Some(ArityMismatch(rule.lhs, lhsArity.value, ident, funArity));
        }
      }
      ghost var t2 := Tables();
      assert RuleStep(t, ident, rule) == FinishRule(RegisterRhs(t2, rule.rhs), ident, rule);
      err := RegisterSymbols(rule.rhs);
      if err.Some? {
        return err;
      }
      if rule.lhs in linearizations.vals || rule.lhs in functions.vals || rule.lhs in sequences.vals {
        return Some(NonterminalClash(rule.lhs));
      }
      if ident in nonterms.vals || ident in sequences.vals {
        return Some(FunctionClash(ident));
      }
      RuleStepConsistent(t, ident, rule);
    }

    /** The `for lhs, _rhs in functions.get(ident, [])` loop of a linearization. */
    method PropagateArity(rules: seq<Rule>, ident: string, funArity: nat) returns (err: Option<Error>)
      requires nonterms.Valid()
      modifies this
      ensures err.None? ==> Propagate(old(Tables()), rules, ident, funArity) == Ok(Tables())
      ensures err.Some? ==> Propagate(old(Tables()), rules, ident, funArity) == Err(err.value)
    {
      ghost var t := Tables();
      var i := 0;
      while i < |rules|
        invariant 0 <= i <= |rules|
        invariant nonterms.Valid()
        invariant Tables() == t.(nonterms := nonterms)
        invariant Propagate(t, rules, ident, funArity) == Propagate(Tables(), rules[i..], ident, funArity)
      {
        assert rules[i..][0] == rules[i] && rules[i..][1..] == rules[i + 1..];
        PropagateUnfold(Tables(), rules[i..], ident, funArity);
        var lhs := rules[i].lhs;
        var lhsArity := Arity(nonterms, lhs);
        if lhsArity.None? {
          nonterms := nonterms.Put(lhs, Some(funArity));
        } else if lhsArity.value != funArity {
          return Some(ArityMismatch(lhs, lhsArity.value, ident, funArity));
        }
        i := i + 1;
      }
      return None;
    }

    /** The `for seq in lin: sequences.setdefault(seq, None)` loop. */
    method DeclareLinSequences(lin: seq<string>)
      requires sequences.Valid()
      modifies this
      ensures Tables() == old(Tables()).(sequences := DeclareSequences(old(sequences), lin))
    {
      ghost var t := Tables();
      var j := 0;
      while j < |lin|
        invariant 0 <= j <= |lin|
        invariant sequences.Valid()
        invariant Tables() == t.(sequences := sequences)
        invariant DeclareSequences(t.sequences, lin) == DeclareSequences(sequences, lin[j..])
      {
        assert lin[j..][1..] == lin[j + 1..];
        sequences := sequences.SetDefault(lin[j], None);
        j := j + 1;
      }
    }

    /** The linearization branch: record it and its arity, propagate the arity to earlier rules, declare its sequences. */
    method AddLinearization(ident: string, lin: seq<string>) returns (err: Option<Error>)
      requires Valid()
      modifies this
      ensures err.None? ==> Valid() && LinStep(old(Tables()), ident, lin) == Ok(Tables())
      ensures err.Some? ==> LinStep(old(Tables()), ident, lin) == Err(err.value)
    {
      ghost var t := Tables();
      if ident in linearizations.vals {
        return Some(Duplicate(LinearizationDecl, ident));
      }
      linearizations := linearizations.Put(ident, lin);
      var funArity := |lin|;
      funArities := funArities[ident := funArity];
      var rules := functions.Get(ident).GetOr([]);
      ghost var t1 := Tables();
      assert LinStep(t, ident, lin) == FinishLin(Propagate(t1, rules, ident, funArity), ident, lin);
      err := PropagateArity(rules, ident, funArity);
      if err.Some? {
        return err;
      }
      DeclareLinSequences(lin);
      if ident in nonterms.vals || ident in sequences.vals {
        return Some(FunctionClash(ident));
      }
      LinStepConsistent(t, ident, lin);
    }

    /** The sequence branch: record the body and cache its max-argument map. */
    method AddSequence(ident: string, toks: seq<Token>) returns (err: Option<Error>)
      requires Valid()
      modifies this
      ensures err.None? ==> Valid() && SeqStep(old(Tables()), ident, toks) == Ok(Tables())
      ensures err.Some? ==> SeqStep(old(Tables()), ident, toks) == Err(err.value)
    {
      ghost var t := Tables();
      if ident in sequences.vals && sequences.vals[ident].Some? {
        return Some(Duplicate(SequenceDecl, ident));
      }
      sequences := sequences.Put(ident, Some(toks));
      var arities := CollectMaxArities(Empty(), toks);
      seqArities := seqArities[ident := arities];
      if ident in nonterms.vals || ident in linearizations.vals || ident in functions.vals {
        return Some(SequenceClash(ident));
      }
      SeqStepConsistent(t, ident, toks);
      return None;
    }

    /** The score branch. */
    method AddScore(ident: string, keyword: string, rest: string) returns (err: Option<Error>)
      requires Valid()
      modifies this
      ensures err.None? ==> Valid() && ScoreStep(old(Tables()), ident, keyword, rest) == Ok(Tables())
      ensures err.Some? ==> ScoreStep(old(Tables()), ident, keyword, rest) == Err(err.value)
    {
      ghost var t := Tables();
      var score := ParseScore(keyword);
      if score.Err? {
        return Some(score.error);
      }
      if rest != [] {
        return Some(ExtraScoreInfo(rest));
      }
      if ident in scores.vals {
        return Some(Duplicate(ScoreDecl, ident));
      }
      scores := scores.Put(ident, score.value);
      ScoreStepConsistent(t, ident, keyword, rest);
      return None;
    }

    /** The body of `read_grammar`'s loop for one line. */
    method ReadLine(line: string) returns (err: Option<Error>)
      requires Valid()
      modifies this
      ensures err.None? ==> Valid() && LineStep(old(Tables()), line) == Ok(Tables())
      ensures err.Some? ==> LineStep(old(Tables()), line) == Err(err.value)
    {
      match ClassifyLine(line)
      case Skip =>
        return None;
      case Pragma(name, info) =>
        AddPragma(name, info);
        return None;
      case Decl(ident, keyword, rest) =>
        if !IsIdentifier(ident) {
          return Some(NotIdentifier(ident));
        }
        if keyword == RuleMarker {
          var rule := ReadRule(rest);
          if rule.Err? {
            return Some(rule.error);
          }
          err := AddRule(ident, rule.value);
        } else if keyword == LinearizationMarker {
          var lin := ReadLinearization(rest);
          if lin.Err? {
            return Some(lin.error);
          }
          err := AddLinearization(ident, lin.value);
        } else if keyword == SequenceMarker {
          var toks := ReadSequence(rest);
          if toks.Err? {
            return Some(toks.error);
          }
          err := AddSequence(ident, toks.value);
        } else {
          err := AddScore(ident, keyword, rest);
        }
    }
  }

  /** `read_grammar(lines, validate)` */
  method ReadGrammar(lines: seq<string>, validate: bool) returns (r: Result<(Grammar, seq<Warning>), Error>)
    ensures r == ReadGrammarOutcome(lines, validate)
  {
    var reader := new GrammarReader();
    var i := 0;
    while i < |lines|
      invariant 0 <= i <= |lines|
      invariant reader.Valid()
      invariant ReadLines(EmptyTables(), lines[..i]) == Ok(reader.Tables())
    {
      ghost var before := reader.Tables();
      var err := reader.ReadLine(lines[i]);
      if err.Some? {
        RejectedLineAborts(lines, i);
        return Err(err.value);
      }
      AcceptedLineExtends(lines, i, before, reader.Tables());
      i := i + 1;
    }
    assert lines[..i] == lines;
    var t := reader.Tables();
    var warnings := if validate then Validate(t) else [];
    return Ok((GrammarOf(t), warnings));
  }
}
