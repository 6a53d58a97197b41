/**
  What one line of `read_grammar` does to the dictionaries, as functions
  from the dictionaries before the line to the dictionaries after it or the
  error the line raises. The checks come in the order the source makes them,
  so the first failing check names the error.
 */
module Steps {
  import opened Wrappers
  import opened OrderedMaps
  import opened Errors
  import opened Lexing
  import opened Sequences
  import opened Structure
  import opened Arities
  import opened Model

  /** `x in linearizations or x in functions or x in sequences` */
  predicate IsFunctionOrSequence(t: Tables, x: string) {
    x in t.linearizations.vals || x in t.functions.vals || x in t.sequences.vals
  }

  /** `rhs[k]` is the first right-hand-side symbol that is a function or sequence of `t`. */
  predicate FirstClashAt(t: Tables, rhs: seq<string>, k: int) {
    && 0 <= k < |rhs|
    && IsFunctionOrSequence(t, rhs[k])
    && forall j :: 0 <= j < k ==> !IsFunctionOrSequence(t, rhs[j])
  }

  /**
    The loop over a rule's right-hand side: each symbol is registered as a
    nonterminal (with unknown arity if it is new) and then checked against
    the functions and sequences. Only `nonterms` changes.
   */
  function RegisterRhs(t: Tables, rhs: seq<string>): (r: Result<Tables, Error>)
    requires t.nonterms.Valid()
    ensures r.Ok? <==> forall j :: 0 <= j < |rhs| ==> !IsFunctionOrSequence(t, rhs[j])
    ensures r.Err? ==> exists k :: FirstClashAt(t, rhs, k) && r.error == NonterminalClash(rhs[k])
    ensures r.Ok? ==> r.value == t.(nonterms := r.value.nonterms)
    decreases |rhs|
  {
    if rhs == [] then Ok(t)
    else if IsFunctionOrSequence(t, rhs[0]) then Err(NonterminalClash(rhs[0]))
    else
      var t1 := t.(nonterms := t.nonterms.SetDefault(rhs[0], None));
      var r := RegisterRhs(t1, rhs[1..]);
      assert r.Err? ==> exists k :: FirstClashAt(t, rhs, k) && r.error == NonterminalClash(rhs[k]) by {
        if r.Err? {
          var k :| FirstClashAt(t1, rhs[1..], k) && r.error == NonterminalClash(rhs[1..][k]);
          FirstClashShift(t, t1, rhs, k);
        }
      }
      r
  }

  /** A clash in the tail of the right-hand side, after a first symbol that does not clash. */
  lemma FirstClashShift(t: Tables, t1: Tables, rhs: seq<string>, k: int)
    requires rhs != [] && !IsFunctionOrSequence(t, rhs[0])
    requires t1.linearizations == t.linearizations && t1.functions == t.functions && t1.sequences == t.sequences
    requires FirstClashAt(t1, rhs[1..], k)
    ensures FirstClashAt(t, rhs, k + 1) && rhs[1..][k] == rhs[k + 1]
  {
    forall j | 0 <= j < k + 1 ensures !IsFunctionOrSequence(t, rhs[j]) {
      if j > 0 {
        assert rhs[j] == rhs[1..][j - 1];
      }
    }
  }

  /** One turn of the right-hand-side loop. */
  lemma RegisterRhsUnfold(t: Tables, rhs: seq<string>)
    requires t.nonterms.Valid() && rhs != []
    ensures RegisterRhs(t, rhs) ==
              if IsFunctionOrSequence(t, rhs[0]) then Err(NonterminalClash(rhs[0]))
              else RegisterRhs(t.(nonterms := t.nonterms.SetDefault(rhs[0], None)), rhs[1..])
  {
  }

  /** After RegisterRhs every symbol is a nonterminal, and no known arity changed. */
  lemma {:induction false} RegisterRhsGrows(t: Tables, rhs: seq<string>)
    requires t.nonterms.Valid()
    requires RegisterRhs(t, rhs).Ok?
    ensures RegisterRhs(t, rhs).value.nonterms.Valid()
    ensures NontermsGrow(t.nonterms, RegisterRhs(t, rhs).value.nonterms)
    ensures forall j :: 0 <= j < |rhs| ==> rhs[j] in RegisterRhs(t, rhs).value.nonterms.vals
    decreases |rhs|
  {
    if rhs != [] {
      var t1 := t.(nonterms := t.nonterms.SetDefault(rhs[0], None));
      RegisterRhsGrows(t1, rhs[1..]);
      var nt := RegisterRhs(t, rhs).value.nonterms;
      assert nt == RegisterRhs(t1, rhs[1..]).value.nonterms;
      NontermsGrowTransitive(t.nonterms, t1.nonterms, nt);
      forall j | 0 <= j < |rhs| ensures rhs[j] in nt.vals {
        if j > 0 {
          assert rhs[j] == rhs[1..][j - 1];
        }
      }
    }
  }

  /**
    RegisterRhs adds exactly the right-hand-side symbols that were not yet
    nonterminals, each with unknown arity, and leaves every other entry alone.
   */
  lemma {:induction false} RegisterRhsAdds(t: Tables, rhs: seq<string>)
    requires t.nonterms.Valid()
    requires RegisterRhs(t, rhs).Ok?
    ensures var nt := RegisterRhs(t, rhs).value.nonterms;
            forall x :: x in nt.vals <==> x in t.nonterms.vals || x in rhs
    ensures var nt := RegisterRhs(t, rhs).value.nonterms;
            forall x :: x in nt.vals ==> nt.vals[x] == Arity(t.nonterms, x)
    decreases |rhs|
  {
    if rhs != [] {
      var t1 := t.(nonterms := t.nonterms.SetDefault(rhs[0], None));
      RegisterRhsAdds(t1, rhs[1..]);
      assert RegisterRhs(t, rhs) == RegisterRhs(t1, rhs[1..]);
      assert forall x :: x in rhs <==> x == rhs[0] || x in rhs[1..];
    }
  }

  /**
    The propagation loop of a linearization: each earlier rule of the
    function gets arity `n` for its left-hand side when that is unknown,
    and the read aborts at the first rule whose left-hand side already has
    another arity. Only `nonterms` changes.
   */
  function Propagate(t: Tables, rules: seq<Rule>, f: string, n: nat): (r: Result<Tables, Error>)
    requires t.nonterms.Valid()
    ensures r.Ok? ==> r.value == t.(nonterms := r.value.nonterms)
    ensures r.Err? ==> r.error.ArityMismatch? && r.error.fun == f && r.error.funArity == n && r.error.lhsArity != n
    decreases |rules|
  {
    if rules == [] then Ok(t)
    else
      var lhs := rules[0].lhs;
      match Arity(t.nonterms, lhs)
      case None => Propagate(t.(nonterms := t.nonterms.Put(lhs, Some(n))), rules[1..], f, n)
      case Some(a) => if a != n then Err(ArityMismatch(lhs, a, f, n)) else Propagate(t, rules[1..], f, n)
  }

  /** One turn of the propagation loop. */
  lemma PropagateUnfold(t: Tables, rules: seq<Rule>, f: string, n: nat)
    requires t.nonterms.Valid() && rules != []
    ensures Propagate(t, rules, f, n) ==
              var lhs := rules[0].lhs;
              match Arity(t.nonterms, lhs)
              case None => Propagate(t.(nonterms := t.nonterms.Put(lhs, Some(n))), rules[1..], f, n)
              case Some(a) => if a != n then Err(ArityMismatch(lhs, a, f, n)) else Propagate(t, rules[1..], f, n)
  {
  }

  /** After Propagate every rule has arity `n`, and no known arity changed. */
  lemma {:induction false} PropagateGrows(t: Tables, rules: seq<Rule>, f: string, n: nat)
    requires t.nonterms.Valid()
    requires Propagate(t, rules, f, n).Ok?
    ensures Propagate(t, rules, f, n).value.nonterms.Valid()
    ensures NontermsGrow(t.nonterms, Propagate(t, rules, f, n).value.nonterms)
    ensures RulesHaveArity(Propagate(t, rules, f, n).value.nonterms, rules, n)
    decreases |rules|
  {
    if rules != [] {
      var lhs := rules[0].lhs;
      var t1 := if Arity(t.nonterms, lhs).None? then t.(nonterms := t.nonterms.Put(lhs, Some(n))) else t;
      assert Propagate(t, rules, f, n) == Propagate(t1, rules[1..], f, n);
      PropagateGrows(t1, rules[1..], f, n);
      var nt := Propagate(t, rules, f, n).value.nonterms;
      NontermsGrowTransitive(t.nonterms, t1.nonterms, nt);
      assert Arity(t1.nonterms, lhs) == Some(n);
      NontermsGrowArity(t1.nonterms, nt, lhs);
      forall i | 1 <= i < |rules| ensures Arity(nt, rules[i].lhs) == Some(n) {
        assert rules[i] == rules[1..][i - 1];
      }
    }
  }

  /** A rule whose left-hand side already has another arity makes the propagation fail. */
  lemma {:induction false} PropagateConflict(t: Tables, rules: seq<Rule>, f: string, n: nat, i: nat)
    requires t.nonterms.Valid()
    requires i < |rules|
    requires Arity(t.nonterms, rules[i].lhs).Some? && Arity(t.nonterms, rules[i].lhs).value != n
    ensures Propagate(t, rules, f, n).Err?
    decreases |rules|
  {
    var lhs := rules[0].lhs;
    if i > 0 {
      match Arity(t.nonterms, lhs)
      case None =>
        var t1 := t.(nonterms := t.nonterms.Put(lhs, Some(n)));
        assert rules[1..][i - 1] == rules[i];
        assert Arity(t1.nonterms, rules[i].lhs) == Arity(t.nonterms, rules[i].lhs);
        PropagateConflict(t1, rules[1..], f, n, i - 1);
      case Some(a) =>
        if a == n {
          assert rules[1..][i - 1] == rules[i];
          PropagateConflict(t, rules[1..], f, n, i - 1);
        }
    }
  }

  /** The left-hand sides of `rules`, in order. */
  function Lhss(rules: seq<Rule>): (r: seq<string>)
    ensures |r| == |rules| && forall i :: 0 <= i < |rules| ==> r[i] == rules[i].lhs
  {
    if rules == [] then [] else [rules[0].lhs] + Lhss(rules[1..])
  }

  /**
    Propagate adds only the rules' left-hand sides to `nonterms` and leaves
    the entry of every other nonterminal alone.
   */
  lemma {:induction false} PropagateKeeps(t: Tables, rules: seq<Rule>, f: string, n: nat)
    requires t.nonterms.Valid()
    requires Propagate(t, rules, f, n).Ok?
    ensures var nt := Propagate(t, rules, f, n).value.nonterms;
            forall x :: x in nt.vals <==> x in t.nonterms.vals || x in Lhss(rules)
    ensures var nt := Propagate(t, rules, f, n).value.nonterms;
            forall x :: x in t.nonterms.vals && x !in Lhss(rules) ==> nt.vals[x] == t.nonterms.vals[x]
    decreases |rules|
  {
    if rules != [] {
      var lhs := rules[0].lhs;
      var t1 := if Arity(t.nonterms, lhs).None? then t.(nonterms := t.nonterms.Put(lhs, Some(n))) else t;
      assert Propagate(t, rules, f, n) == Propagate(t1, rules[1..], f, n);
      PropagateKeeps(t1, rules[1..], f, n);
      assert Lhss(rules) == [lhs] + Lhss(rules[1..]);
    }
  }

  /** `sequences.setdefault(seq, None)` for every sequence a linearization names. */
  function DeclareSequences(seqs: OMap<string, Option<seq<Token>>>, lin: seq<string>): (r: OMap<string, Option<seq<Token>>>)
    requires seqs.Valid()
    ensures r.Valid()
    decreases |lin|
  {
    if lin == [] then seqs else DeclareSequences(seqs.SetDefault(lin[0], None), lin[1..])
  }

  /** DeclareSequences adds the named sequences, undefined, and leaves every existing entry alone. */
  lemma {:induction false} DeclareSequencesAdds(seqs: OMap<string, Option<seq<Token>>>, lin: seq<string>)
    requires seqs.Valid()
    ensures var r := DeclareSequences(seqs, lin);
            forall s :: s in r.vals <==> s in seqs.vals || s in lin
    ensures var r := DeclareSequences(seqs, lin);
            forall s :: s in r.vals ==> r.vals[s] == if s in seqs.vals then seqs.vals[s] else None
    decreases |lin|
  {
    if lin != [] {
      DeclareSequencesAdds(seqs.SetDefault(lin[0], None), lin[1..]);
      assert forall s :: s in lin <==> s == lin[0] || s in lin[1..];
    }
  }

  /** A rule `ident : lhs <- rhs`, with the checks in the source's order. */
  function RuleStep(t: Tables, ident: string, rule: Rule): (r: Result<Tables, Error>)
    requires WellFormed(t)
    ensures r.Ok? ==> WellFormed(r.value)
    ensures r.Ok? ==> !(ident in t.nonterms.vals || ident in t.sequences.vals)
    ensures r.Ok? ==> && r.value.functions.Valid()
                      && r.value.functions.vals == t.functions.vals[ident := t.functions.Get(ident).GetOr([]) + [rule]]
                      && r.value.linearizations == t.linearizations && r.value.funArities == t.funArities
                      && r.value.sequences == t.sequences
  {
    var t1 := t.(functions := t.functions.Put(ident, t.functions.Get(ident).GetOr([]) + [rule]));
    var lhsArity := Arity(t.nonterms, rule.lhs);
    if ident in t.funArities && lhsArity.Some? && lhsArity.value != t.funArities[ident] then
      Err(ArityMismatch(rule.lhs, lhsArity.value, ident, t.funArities[ident]))
    else
      var t2 := if ident in t.funArities && lhsArity.None? then t1.(nonterms := t1.nonterms.Put(rule.lhs, Some(t.funArities[ident]))) else t1;
      var r3 := RegisterRhs(t2, rule.rhs);
      if r3.Ok? then
        RegisterRhsGrows(t2, rule.rhs);
        FinishRule(r3, ident, rule)
      else FinishRule(r3, ident, rule)
  }

  /**
    The rejections of a rule line: a right-hand-side symbol that is a
    function or sequence (or the rule's own function), a left-hand side
    that is one, and a left-hand side whose arity disagrees with the
    function's linearization.
   */
  lemma RuleStepRejects(t: Tables, ident: string, rule: Rule)
    requires WellFormed(t)
    ensures (exists j :: 0 <= j < |rule.rhs| && (IsFunctionOrSequence(t, rule.rhs[j]) || rule.rhs[j] == ident)) ==>
              RuleStep(t, ident, rule).Err?
    ensures IsFunctionOrSequence(t, rule.lhs) || rule.lhs == ident ==> RuleStep(t, ident, rule).Err?
    ensures ident in t.funArities && Arity(t.nonterms, rule.lhs).Some? && Arity(t.nonterms, rule.lhs).value != t.funArities[ident] ==>
              RuleStep(t, ident, rule) == Err(ArityMismatch(rule.lhs, Arity(t.nonterms, rule.lhs).value, ident, t.funArities[ident]))
  {
    var t1 := t.(functions := t.functions.Put(ident, t.functions.Get(ident).GetOr([]) + [rule]));
    var lhsArity := Arity(t.nonterms, rule.lhs);
    if !(ident in t.funArities && lhsArity.Some? && lhsArity.value != t.funArities[ident]) {
      var t2 := if ident in t.funArities && lhsArity.None? then t1.(nonterms := t1.nonterms.Put(rule.lhs, Some(t.funArities[ident]))) else t1;
      assert forall x :: IsFunctionOrSequence(t, x) || x == ident ==> IsFunctionOrSequence(t2, x);
      var r3 := RegisterRhs(t2, rule.rhs);
      if r3.Ok? {
        RegisterRhsGrows(t2, rule.rhs);
      }
    }
  }

  /**
    The arity a rule line leaves for `x`: the function's arity for a
    left-hand side whose arity was unknown, otherwise the arity it had.
   */
  function RuleArity(t: Tables, ident: string, rule: Rule, x: string): Option<nat> {
    if x == rule.lhs && ident in t.funArities && Arity(t.nonterms, x).None? then Some(t.funArities[ident])
    else Arity(t.nonterms, x)
  }

  /**
    The whole state after an accepted rule: besides the rule stored under
    its function, `nonterms` gains the right-hand-side symbols and, when the
    function's arity is known, the left-hand side, with the arities
    RuleArity gives; the other six dictionaries are unchanged.
   */
  lemma RuleStepState(t: Tables, ident: string, rule: Rule)
    requires WellFormed(t)
    ensures var r := RuleStep(t, ident, rule);
            r.Ok? ==> r.value == t.(functions := t.functions.Put(ident, t.functions.Get(ident).GetOr([]) + [rule]),
                                    nonterms := r.value.nonterms)
    ensures var r := RuleStep(t, ident, rule);
            r.Ok? ==> forall x :: x in r.value.nonterms.vals <==>
                        x in t.nonterms.vals || x in rule.rhs || (x == rule.lhs && ident in t.funArities)
    ensures var r := RuleStep(t, ident, rule);
            r.Ok? ==> forall x :: x in r.value.nonterms.vals ==> r.value.nonterms.vals[x] == RuleArity(t, ident, rule, x)
  {
    var t1 := t.(functions := t.functions.Put(ident, t.functions.Get(ident).GetOr([]) + [rule]));
    var lhsArity := Arity(t.nonterms, rule.lhs);
    if !(ident in t.funArities && lhsArity.Some? && lhsArity.value != t.funArities[ident]) {
      var t2 := if ident in t.funArities && lhsArity.None? then t1.(nonterms := t1.nonterms.Put(rule.lhs, Some(t.funArities[ident]))) else t1;
      var r3 := RegisterRhs(t2, rule.rhs);
      if r3.Ok? {
        RegisterRhsAdds(t2, rule.rhs);
        assert forall x :: Arity(t2.nonterms, x) == RuleArity(t, ident, rule, x);
      }
    }
  }

  /** The checks after the right-hand side loop: the left-hand side, then the function name. */
  function FinishRule(r3: Result<Tables, Error>, ident: string, rule: Rule): (r: Result<Tables, Error>)
    ensures r.Ok? ==> r3 == r
  {
    match r3
    case Err(e) => Err(e)
    case Ok(t3) =>
      if IsFunctionOrSequence(t3, rule.lhs) then Err(NonterminalClash(rule.lhs))
      else if ident in t3.nonterms.vals || ident in t3.sequences.vals then Err(FunctionClash(ident))
      else Ok(t3)
  }

  /** A linearization `ident = seq...`, with the checks in the source's order. */
  function LinStep(t: Tables, ident: string, lin: seq<string>): (r: Result<Tables, Error>)
    requires WellFormed(t)
    ensures r.Ok? ==> WellFormed(r.value)
    ensures ident in t.linearizations.vals ==> r == Err(Duplicate(LinearizationDecl, ident))
    ensures ident in t.nonterms.vals || ident in t.sequences.vals || ident in lin ==> r.Err?
    ensures r.Err? && ident !in t.linearizations.vals ==> r.error.ArityMismatch? || r.error == FunctionClash(ident)
    ensures r.Ok? ==> && r.value.linearizations.vals == t.linearizations.vals[ident := lin]
                      && r.value.funArities == t.funArities[ident := |lin|]
                      && r.value.functions == t.functions
  {
    if ident in t.linearizations.vals then Err(Duplicate(LinearizationDecl, ident))
    else
      var n := |lin|;
      var t1 := t.(linearizations := t.linearizations.Put(ident, lin), funArities := t.funArities[ident := n]);
      var r2 := Propagate(t1, t.functions.Get(ident).GetOr([]), ident, n);
      if r2.Ok? then
        PropagateGrows(t1, t.functions.Get(ident).GetOr([]), ident, n);
        DeclareSequencesAdds(r2.value.sequences, lin);
        FinishLin(r2, ident, lin)
      else FinishLin(r2, ident, lin)
  }

  /** The sequences of a linearization are declared, then the function name is checked. */
  function FinishLin(r2: Result<Tables, Error>, ident: string, lin: seq<string>): (r: Result<Tables, Error>)
    requires r2.Ok? ==> r2.value.sequences.Valid()
  {
    match r2
    case Err(e) => Err(e)
    case Ok(t2) =>
      var t3 := t2.(sequences := DeclareSequences(t2.sequences, lin));
      if ident in t3.nonterms.vals || ident in t3.sequences.vals then Err(FunctionClash(ident)) else Ok(t3)
  }

  /**
    The whole state after an accepted linearization: it is stored with its
    arity, its sequences are declared, the left-hand sides of the function's
    rules get that arity and no other nonterminal changes; pragmas,
    functions and scores are unchanged.
   */
  lemma LinStepState(t: Tables, ident: string, lin: seq<string>)
    requires WellFormed(t)
    ensures var r := LinStep(t, ident, lin);
            r.Ok? ==> r.value == t.(linearizations := t.linearizations.Put(ident, lin),
                                    funArities := t.funArities[ident := |lin|],
                                    sequences := DeclareSequences(t.sequences, lin),
                                    nonterms := r.value.nonterms)
    ensures var r := LinStep(t, ident, lin);
            var lhss := Lhss(t.functions.Get(ident).GetOr([]));
            r.Ok? ==> forall x :: x in r.value.nonterms.vals <==> x in t.nonterms.vals || x in lhss
    ensures var r := LinStep(t, ident, lin);
            var lhss := Lhss(t.functions.Get(ident).GetOr([]));
            r.Ok? ==> forall x :: x in lhss ==> Arity(r.value.nonterms, x) == Some(|lin|)
    ensures var r := LinStep(t, ident, lin);
            var lhss := Lhss(t.functions.Get(ident).GetOr([]));
            r.Ok? ==> forall x :: x in t.nonterms.vals && x !in lhss ==> r.value.nonterms.vals[x] == t.nonterms.vals[x]
  {
    if ident !in t.linearizations.vals {
      var n := |lin|;
      var rules := t.functions.Get(ident).GetOr([]);
      var t1 := t.(linearizations := t.linearizations.Put(ident, lin), funArities := t.funArities[ident := n]);
      var r2 := Propagate(t1, rules, ident, n);
      if r2.Ok? {
        PropagateGrows(t1, rules, ident, n);
        PropagateKeeps(t1, rules, ident, n);
        forall x | x in Lhss(rules) ensures Arity(r2.value.nonterms, x) == Some(n) {
          var i :| 0 <= i < |rules| && Lhss(rules)[i] == x;
        }
      }
    }
  }

  /** A sequence `ident -> tokens`, once its body has been tokenized. */
  function SeqStep(t: Tables, ident: string, toks: seq<Token>): (r: Result<Tables, Error>)
    requires WellFormed(t)
    ensures r.Ok? ==> WellFormed(r.value)
    ensures r.Ok? <==> !(ident in t.sequences.vals && t.sequences.vals[ident].Some?) &&
                       !(ident in t.nonterms.vals || ident in t.linearizations.vals || ident in t.functions.vals)
    ensures ident in t.sequences.vals && t.sequences.vals[ident].Some? ==> r == Err(Duplicate(SequenceDecl, ident))
    ensures r.Ok? ==> r.value.sequences.vals == t.sequences.vals[ident := Some(toks)]
    ensures r.Ok? ==> r.value == t.(sequences := t.sequences.Put(ident, Some(toks)),
                                    seqArities := t.seqArities[ident := BodyArities(toks)])
  {
    if ident in t.sequences.vals && t.sequences.vals[ident].Some? then Err(Duplicate(SequenceDecl, ident))
    else
      var t1 := t.(sequences := t.sequences.Put(ident, Some(toks)), seqArities := t.seqArities[ident := BodyArities(toks)]);
      if ident in t.nonterms.vals || ident in t.linearizations.vals || ident in t.functions.vals then Err(SequenceClash(ident))
      else Ok(t1)
  }

  /** A score `ident number`. */
  function ScoreStep(t: Tables, ident: string, keyword: string, rest: string): (r: Result<Tables, Error>)
    requires WellFormed(t)
    ensures r.Ok? ==> WellFormed(r.value)
    ensures r.Ok? <==> ParseScore(keyword).Ok? && rest == [] && ident !in t.scores.vals
    ensures ParseScore(keyword).Err? ==> r == Err(BadScore(keyword))
    ensures ParseScore(keyword).Ok? && rest != [] ==> r == Err(ExtraScoreInfo(rest))
    ensures ParseScore(keyword).Ok? && rest == [] && ident in t.scores.vals ==> r == Err(Duplicate(ScoreDecl, ident))
    ensures r.Ok? ==> r.value == t.(scores := t.scores.Put(ident, ParseScore(keyword).value))
  {
    match ParseScore(keyword)
    case Err(e) => Err(e)
    case Ok(score) =>
      if rest != [] then Err(ExtraScoreInfo(rest))
      else if ident in t.scores.vals then Err(Duplicate(ScoreDecl, ident))
      else Ok(t.(scores := t.scores.Put(ident, score)))
  }

  /** A pragma appends its payload to the list kept under its name. */
  function PragmaStep(t: Tables, name: Option<string>, info: string): (r: Tables)
    requires WellFormed(t)
    ensures WellFormed(r)
    ensures r.pragmas.Valid() && name in r.pragmas.vals
    ensures r.pragmas.vals[name] == (if name in t.pragmas.vals then t.pragmas.vals[name] else []) + [info]
    ensures forall p :: p in t.pragmas.vals && p != name ==> p in r.pragmas.vals && r.pragmas.vals[p] == t.pragmas.vals[p]
    ensures r == t.(pragmas := r.pragmas)
  {
    t.(pragmas := t.pragmas.Put(name, t.pragmas.Get(name).GetOr([]) + [info]))
  }

  /** One input line. */
  function LineStep(t: Tables, line: string): (r: Result<Tables, Error>)
    requires WellFormed(t)
    ensures r.Ok? ==> WellFormed(r.value)
    ensures ClassifyLine(line).Skip? ==> r == Ok(t)
    ensures ClassifyLine(line).Pragma? ==> r == Ok(PragmaStep(t, ClassifyLine(line).name, ClassifyLine(line).info))
  {
    match ClassifyLine(line)
    case Skip => Ok(t)
    case Pragma(name, info) => Ok(PragmaStep(t, name, info))
    case Decl(ident, keyword, rest) =>
      if !IsIdentifier(ident) then Err(NotIdentifier(ident))
      else if keyword == RuleMarker then
        match ParseRule(rest)
        case Err(e) => Err(e)
        case Ok(rule) => RuleStep(t, ident, rule)
      else if keyword == LinearizationMarker then
        match ReadLinearization(rest)
        case Err(e) => Err(e)
        case Ok(lin) => LinStep(t, ident, lin)
      else if keyword == SequenceMarker then
        match Scan(rest)
        case Err(e) => Err(e)
        case Ok(toks) => SeqStep(t, ident, toks)
      else ScoreStep(t, ident, keyword, rest)
  }

  /**
    A declaration line: an identifier is required first, then the keyword
    picks the declaration, whose body is parsed before the dictionaries are
    touched; a body that does not parse is the line's error, and any other
    keyword is a score.
   */
  lemma LineStepDecl(t: Tables, line: string)
    requires WellFormed(t) && ClassifyLine(line).Decl?
    ensures var k := ClassifyLine(line);
            !IsIdentifier(k.ident) ==> LineStep(t, line) == Err(NotIdentifier(k.ident))
    ensures var k := ClassifyLine(line);
            IsIdentifier(k.ident) && k.keyword == RuleMarker ==>
              LineStep(t, line) == match ParseRule(k.rest)
                                   case Err(e) => Err(e)
                                   case Ok(rule) => RuleStep(t, k.ident, rule)
    ensures var k := ClassifyLine(line);
            IsIdentifier(k.ident) && k.keyword == LinearizationMarker ==>
              LineStep(t, line) == match ReadLinearization(k.rest)
                                   case Err(e) => Err(e)
                                   case Ok(lin) => LinStep(t, k.ident, lin)
    ensures var k := ClassifyLine(line);
            IsIdentifier(k.ident) && k.keyword == SequenceMarker ==>
              LineStep(t, line) == match Scan(k.rest)
                                   case Err(e) => Err(e)
                                   case Ok(toks) => SeqStep(t, k.ident, toks)
    ensures var k := ClassifyLine(line);
            IsIdentifier(k.ident) && k.keyword !in {RuleMarker, LinearizationMarker, SequenceMarker} ==>
              LineStep(t, line) == ScoreStep(t, k.ident, k.keyword, k.rest)
  {
  }
}
