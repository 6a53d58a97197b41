/**
  Every accepted line keeps the dictionaries consistent, so a grammar that
  has been read completely satisfies arity agreement and has every
  referenced symbol registered.
 */
module Consistency {
  import opened Wrappers
  import opened OrderedMaps
  import opened Errors
  import opened Lexing
  import opened Sequences
  import opened Structure
  import opened Model
  import opened Steps

  /** Adding a rule keeps the invariant when the new rule is registered and agrees with its function's arity. */
  lemma {:induction false} AddRuleKeepsConsistent(t: Tables, u: Tables, ident: string, rule: Rule)
    requires Consistent(t) && WellFormed(u)
    requires u.linearizations == t.linearizations && u.sequences == t.sequences
    requires u.funArities == t.funArities && u.seqArities == t.seqArities
    requires u.functions.vals == t.functions.vals[ident := t.functions.Get(ident).GetOr([]) + [rule]]
    requires NontermsGrow(t.nonterms, u.nonterms)
    requires forall j :: 0 <= j < |rule.rhs| ==> rule.rhs[j] in u.nonterms.vals
    requires ident in t.funArities ==> Arity(u.nonterms, rule.lhs) == Some(t.funArities[ident])
    ensures Consistent(u)
  {
    var rules := t.functions.Get(ident).GetOr([]) + [rule];
    assert AritiesAgree(u) by {
      forall g | g in u.functions.vals && g in u.funArities
        ensures RulesHaveArity(u.nonterms, u.functions.vals[g], u.funArities[g])
      {
        if g in t.functions.vals {
          RulesHaveArityGrow(t.nonterms, u.nonterms, t.functions.vals[g], t.funArities[g]);
        }
        if g == ident {
          assert u.functions.vals[g] == rules;
          assert rules[|rules| - 1] == rule;
        }
      }
    }
    assert RhsRegistered(u) by {
      forall g | g in u.functions.vals ensures RulesRegistered(u.nonterms, u.functions.vals[g]) {
        if g in t.functions.vals {
          RulesRegisteredGrow(t.nonterms, u.nonterms, t.functions.vals[g]);
        }
        if g == ident {
          assert u.functions.vals[g] == rules;
          assert rules[|rules| - 1] == rule;
        }
      }
    }
  }

  lemma {:induction false} RuleStepConsistent(t: Tables, ident: string, rule: Rule)
    requires Consistent(t)
    requires RuleStep(t, ident, rule).Ok?
    ensures Consistent(RuleStep(t, ident, rule).value)
  {
    var t1 := t.(functions := t.functions.Put(ident, t.functions.Get(ident).GetOr([]) + [rule]));
    var lhsArity := Arity(t.nonterms, rule.lhs);
    var t2 := if ident in t.funArities && lhsArity.None? then t1.(nonterms := t1.nonterms.Put(rule.lhs, Some(t.funArities[ident]))) else t1;
    assert NontermsGrow(t.nonterms, t2.nonterms);
    assert ident in t.funArities ==> Arity(t2.nonterms, rule.lhs) == Some(t.funArities[ident]);
    RegisterRhsGrows(t2, rule.rhs);
    var t3 := RegisterRhs(t2, rule.rhs).value;
    assert RuleStep(t, ident, rule).value == t3;
    NontermsGrowTransitive(t.nonterms, t2.nonterms, t3.nonterms);
    if ident in t.funArities {
      NontermsGrowArity(t2.nonterms, t3.nonterms, rule.lhs);
    }
    AddRuleKeepsConsistent(t, t3, ident, rule);
  }

  /** Adding a new linearization keeps the invariant when its function's rules have its arity and its sequences are declared. */
  lemma {:induction false} AddLinKeepsConsistent(t: Tables, u: Tables, ident: string, lin: seq<string>)
    requires Consistent(t) && WellFormed(u)
    requires ident !in t.linearizations.vals
    requires u.functions == t.functions && u.seqArities == t.seqArities
    requires u.linearizations.vals == t.linearizations.vals[ident := lin]
    requires u.funArities == t.funArities[ident := |lin|]
    requires NontermsGrow(t.nonterms, u.nonterms)
    requires RulesHaveArity(u.nonterms, t.functions.Get(ident).GetOr([]), |lin|)
    requires forall s :: s in u.sequences.vals <==> s in t.sequences.vals || s in lin
    requires forall s :: s in u.sequences.vals ==> u.sequences.vals[s] == if s in t.sequences.vals then t.sequences.vals[s] else None
    ensures Consistent(u)
  {
    assert AritiesAgree(u) by {
      forall g | g in u.functions.vals && g in u.funArities
        ensures RulesHaveArity(u.nonterms, u.functions.vals[g], u.funArities[g])
      {
        if g != ident {
          RulesHaveArityGrow(t.nonterms, u.nonterms, t.functions.vals[g], t.funArities[g]);
        }
      }
    }
    assert RhsRegistered(u) by {
      forall g | g in u.functions.vals ensures RulesRegistered(u.nonterms, u.functions.vals[g]) {
        RulesRegisteredGrow(t.nonterms, u.nonterms, t.functions.vals[g]);
      }
    }
    assert SequencesRegistered(u) by {
      forall g | g in u.linearizations.vals ensures LinRegistered(u.sequences, u.linearizations.vals[g]) {
        if g != ident {
          assert LinRegistered(t.sequences, t.linearizations.vals[g]);
        }
      }
    }
  }

  lemma {:induction false} LinStepConsistent(t: Tables, ident: string, lin: seq<string>)
    requires Consistent(t)
    requires LinStep(t, ident, lin).Ok?
    ensures Consistent(LinStep(t, ident, lin).value)
  {
    var n := |lin|;
    var rules := t.functions.Get(ident).GetOr([]);
    var t1 := t.(linearizations := t.linearizations.Put(ident, lin), funArities := t.funArities[ident := n]);
    PropagateGrows(t1, rules, ident, n);
    var t2 := Propagate(t1, rules, ident, n).value;
    DeclareSequencesAdds(t2.sequences, lin);
    var t3 := t2.(sequences := DeclareSequences(t2.sequences, lin));
    assert LinStep(t, ident, lin).value == t3;
    AddLinKeepsConsistent(t, t3, ident, lin);
  }

  lemma {:induction false} SeqStepConsistent(t: Tables, ident: string, toks: seq<Token>)
    requires Consistent(t)
    requires SeqStep(t, ident, toks).Ok?
    ensures Consistent(SeqStep(t, ident, toks).value)
  {
  }

  lemma {:induction false} ScoreStepConsistent(t: Tables, ident: string, keyword: string, rest: string)
    requires Consistent(t)
    requires ScoreStep(t, ident, keyword, rest).Ok?
    ensures Consistent(ScoreStep(t, ident, keyword, rest).value)
  {
  }

  lemma {:induction false} LineStepConsistent(t: Tables, line: string)
    requires Consistent(t)
    requires LineStep(t, line).Ok?
    ensures Consistent(LineStep(t, line).value)
  {
    match ClassifyLine(line)
    case Skip =>
    case Pragma(name, info) =>
    case Decl(ident, keyword, rest) =>
      if keyword == RuleMarker {
        RuleStepConsistent(t, ident, ParseRule(rest).value);
      } else if keyword == LinearizationMarker {
        LinStepConsistent(t, ident, ReadLinearization(rest).value);
      } else if keyword == SequenceMarker {
        SeqStepConsistent(t, ident, Scan(rest).value);
      } else {
        ScoreStepConsistent(t, ident, keyword, rest);
      }
  }

  /** A rule accepted before its function's linearization: the linearization gives the rule's left-hand side its arity. */
  lemma {:induction false} RuleThenLinearization(t: Tables, f: string, rule: Rule, lin: seq<string>)
    requires Consistent(t)
    requires RuleStep(t, f, rule).Ok?
    requires LinStep(RuleStep(t, f, rule).value, f, lin).Ok?
    ensures Arity(LinStep(RuleStep(t, f, rule).value, f, lin).value.nonterms, rule.lhs) == Some(|lin|)
  {
    var t1 := RuleStep(t, f, rule).value;
    RuleStepConsistent(t, f, rule);
    var t2 := LinStep(t1, f, lin).value;
    LinStepConsistent(t1, f, lin);
    var rules := t2.functions.vals[f];
    assert rules == t.functions.Get(f).GetOr([]) + [rule];
    assert RulesHaveArity(t2.nonterms, rules, t2.funArities[f]);
    assert rules[|rules| - 1] == rule;
  }

  /** A rule accepted after its function's linearization: its left-hand side has the linearization's arity. */
  lemma {:induction false} LinearizationThenRule(t: Tables, f: string, lin: seq<string>, rule: Rule)
    requires Consistent(t)
    requires LinStep(t, f, lin).Ok?
    requires RuleStep(LinStep(t, f, lin).value, f, rule).Ok?
    ensures Arity(RuleStep(LinStep(t, f, lin).value, f, rule).value.nonterms, rule.lhs) == Some(|lin|)
  {
    var t1 := LinStep(t, f, lin).value;
    LinStepConsistent(t, f, lin);
    var t2 := RuleStep(t1, f, rule).value;
    RuleStepConsistent(t1, f, rule);
    var rules := t2.functions.vals[f];
    assert rules == t1.functions.Get(f).GetOr([]) + [rule];
    assert RulesHaveArity(t2.nonterms, rules, t2.funArities[f]);
    assert rules[|rules| - 1] == rule;
  }

  /**
    A rule whose left-hand side already has the arity of another function's
    linearization is rejected when its own function's arity differs.
   */
  lemma {:induction false} ConflictingRuleRejected(t: Tables, f: string, g: string, i: nat, rhs: seq<string>)
    requires Consistent(t)
    requires g in t.functions.vals && i < |t.functions.vals[g]|
    requires g in t.linearizations.vals && f in t.linearizations.vals
    requires |t.linearizations.vals[f]| != |t.linearizations.vals[g]|
    ensures var lhs := t.functions.vals[g][i].lhs;
            RuleStep(t, f, Rule(lhs, rhs)) == Err(ArityMismatch(lhs, |t.linearizations.vals[g]|, f, |t.linearizations.vals[f]|))
  {
    assert RulesHaveArity(t.nonterms, t.functions.vals[g], t.funArities[g]);
  }

  /**
    A linearization is rejected when one of its function's earlier rules has
    a left-hand side whose recorded arity differs from the linearization's length.
   */
  lemma {:induction false} ConflictingLinearizationRejected(t: Tables, f: string, lin: seq<string>, i: nat)
    requires Consistent(t)
    requires f !in t.linearizations.vals
    requires f in t.functions.vals && i < |t.functions.vals[f]|
    requires Arity(t.nonterms, t.functions.vals[f][i].lhs).Some?
    requires Arity(t.nonterms, t.functions.vals[f][i].lhs).value != |lin|
    ensures LinStep(t, f, lin).Err? && LinStep(t, f, lin).error.ArityMismatch?
  {
    var t1 := t.(linearizations := t.linearizations.Put(f, lin), funArities := t.funArities[f := |lin|]);
    PropagateConflict(t1, t.functions.vals[f], f, |lin|, i);
  }
}
