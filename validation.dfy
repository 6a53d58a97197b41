/**
  The deferred checks `read_grammar` makes once every line is read, as a
  function from the dictionaries to the list of warnings, in the order the
  source emits them.
 */
module Validation {
  import opened Wrappers
  import opened OrderedMaps
  import opened Sequences
  import opened Structure
  import opened Arities
  import opened Model

  datatype Warning =
    | UndefinedNonterminals(names: set<string>)
    | UndefinedSequences(names: set<string>)
    | MissingLinearization(fun: string)
    | ArityDisagrees(lhs: string, lhsArity: Option<nat>, fun: string, funArity: nat)
    | ArgumentOutOfRange(fun: string, arg: nat, bound: nat)
    | MissingDefinition(nonterm: string)
    | ReferenceExceedsArity(arg: nat, maxref: int, fun: string, nonterm: string, arity: nat)

  /** The nonterminals whose arity is still unknown. */
  function UndefinedNonterms(t: Tables): (r: set<string>)
    ensures forall x :: x in r <==> x in t.nonterms.vals && t.nonterms.vals[x].None?
  {
    set x | x in t.nonterms.vals && t.nonterms.vals[x].None?
  }

  /** The sequences named in a linearization that never got a body. */
  function UndefinedSeqs(t: Tables): (r: set<string>)
    ensures forall s :: s in r <==> s in t.sequences.vals && t.sequences.vals[s].None?
  {
    set s | s in t.sequences.vals && t.sequences.vals[s].None?
  }

  /**
    `collect_max_arities(arities, seq_arities[seq].items())` for every
    sequence of a linearization, in order; a sequence without a body has no
    cached map and contributes nothing.
   */
  function MergeArities(t: Tables, m: ArgMap, lin: seq<string>): (r: ArgMap)
    requires WellFormed(t) && m.Valid()
    ensures r.Valid()
    decreases |lin|
  {
    if lin == [] then m
    else
      var m1 := if lin[0] in t.seqArities then Collect(m, Items(t.seqArities[lin[0]])) else m;
      MergeArities(t, m1, lin[1..])
  }

  /** The combined max-argument map of a function's linearization. */
  function LinArities(t: Tables, f: string): (r: ArgMap)
    requires WellFormed(t) && f in t.linearizations.vals
    ensures r.Valid()
  {
    MergeArities(t, Empty(), t.linearizations.vals[f])
  }

  /** `fun_arities[fun]`, which every linearized function has. */
  function FunArity(t: Tables, f: string): nat
    requires f in t.linearizations.vals
  {
    if f in t.funArities then t.funArities[f] else |t.linearizations.vals[f]|
  }

  /** One argument index of the linearization checked against one rule's right-hand side. */
  function CheckArg(t: Tables, f: string, rhs: seq<string>, arg: nat, maxref: int): seq<Warning> {
    if arg >= |rhs| then [ArgumentOutOfRange(f, arg, |rhs|)]
    else
      match Arity(t.nonterms, rhs[arg])
      case None => [MissingDefinition(rhs[arg])]
      case Some(a) => if a <= maxref then [ReferenceExceedsArity(arg, maxref, f, rhs[arg], a)] else []
  }

  function CheckArgs(t: Tables, f: string, rhs: seq<string>, items: seq<(nat, int)>): seq<Warning>
    decreases |items|
  {
    if items == [] then [] else CheckArg(t, f, rhs, items[0].0, items[0].1) + CheckArgs(t, f, rhs, items[1..])
  }

  function CheckRule(t: Tables, f: string, n: nat, items: seq<(nat, int)>, rule: Rule): seq<Warning> {
    var a := Arity(t.nonterms, rule.lhs);
    (if a != Some(n) then [ArityDisagrees(rule.lhs, a, f, n)] else []) + CheckArgs(t, f, rule.rhs, items)
  }

  function CheckRules(t: Tables, f: string, n: nat, items: seq<(nat, int)>, rules: seq<Rule>): seq<Warning>
    decreases |rules|
  {
    if rules == [] then [] else CheckRule(t, f, n, items, rules[0]) + CheckRules(t, f, n, items, rules[1..])
  }

  function CheckFunction(t: Tables, f: string): seq<Warning>
    requires WellFormed(t) && f in t.functions.vals
  {
    if f !in t.linearizations.vals then [MissingLinearization(f)]
    else CheckRules(t, f, FunArity(t, f), Items(LinArities(t, f)), t.functions.vals[f])
  }

  function CheckFunctions(t: Tables, fs: seq<string>): seq<Warning>
    requires WellFormed(t) && forall i :: 0 <= i < |fs| ==> fs[i] in t.functions.vals
    decreases |fs|
  {
    if fs == [] then [] else CheckFunction(t, fs[0]) + CheckFunctions(t, fs[1..])
  }

  /** The warnings of the deferred sweep, functions visited in definition order. */
  function Validate(t: Tables): seq<Warning>
    requires WellFormed(t)
  {
    var un := UndefinedNonterms(t);
    var us := UndefinedSeqs(t);
    (if un != {} then [UndefinedNonterminals(un)] else []) +
    (if us != {} then [UndefinedSequences(us)] else []) +
    CheckFunctions(t, t.functions.keys)
  }

  /** Rule `i` of `f` names `x` as the argument `arg` that `f`'s linearization refers to. */
  ghost predicate NamesArgument(t: Tables, f: string, i: int, arg: nat, x: string)
    requires WellFormed(t)
  {
    && f in t.functions.vals && f in t.linearizations.vals
    && 0 <= i < |t.functions.vals[f]|
    && arg in LinArities(t, f).vals
    && arg < |t.functions.vals[f][i].rhs| && t.functions.vals[f][i].rhs[arg] == x
  }

  /** What each warning says about the dictionaries. */
  ghost predicate Justified(t: Tables, w: Warning)
    requires WellFormed(t)
  {
    match w
    case UndefinedNonterminals(names) => names == UndefinedNonterms(t) && names != {}
    case UndefinedSequences(names) => names == UndefinedSeqs(t) && names != {}
    case MissingLinearization(f) => f in t.functions.vals && f !in t.linearizations.vals
    case ArityDisagrees(lhs, a, f, n) =>
      && f in t.functions.vals && f in t.linearizations.vals && n == FunArity(t, f)
      && a == Arity(t.nonterms, lhs) && a != Some(n)
      && exists i :: 0 <= i < |t.functions.vals[f]| && t.functions.vals[f][i].lhs == lhs
    case ArgumentOutOfRange(f, arg, bound) =>
      && f in t.functions.vals && f in t.linearizations.vals
      && arg in LinArities(t, f).vals && bound <= arg
      && exists i :: 0 <= i < |t.functions.vals[f]| && |t.functions.vals[f][i].rhs| == bound
    case MissingDefinition(x) =>
      && Arity(t.nonterms, x).None?
      && exists f, i, arg :: NamesArgument(t, f, i, arg, x)
    case ReferenceExceedsArity(arg, maxref, f, x, a) =>
      && f in t.linearizations.vals && arg in LinArities(t, f).vals && LinArities(t, f).vals[arg] == maxref
      && Arity(t.nonterms, x) == Some(a) && a <= maxref
      && exists i :: NamesArgument(t, f, i, arg, x)
  }

  /** The items of the linearization's map, or any part of them. */
  ghost predicate ItemsOf(t: Tables, f: string, items: seq<(nat, int)>)
    requires WellFormed(t) && f in t.linearizations.vals
  {
    forall j :: 0 <= j < |items| ==>
      items[j].0 in LinArities(t, f).vals && LinArities(t, f).vals[items[j].0] == items[j].1
  }

  lemma CheckArgSound(t: Tables, f: string, i: nat, arg: nat, maxref: int, w: Warning)
    requires WellFormed(t) && f in t.functions.vals && f in t.linearizations.vals && i < |t.functions.vals[f]|
    requires arg in LinArities(t, f).vals && LinArities(t, f).vals[arg] == maxref
    requires w in CheckArg(t, f, t.functions.vals[f][i].rhs, arg, maxref)
    ensures Justified(t, w)
  {
    var rhs := t.functions.vals[f][i].rhs;
    if arg < |rhs| {
      assert NamesArgument(t, f, i, arg, rhs[arg]);
    }
  }

  lemma {:induction false} CheckArgsSound(t: Tables, f: string, i: nat, items: seq<(nat, int)>, w: Warning)
    requires WellFormed(t) && f in t.functions.vals && f in t.linearizations.vals && i < |t.functions.vals[f]|
    requires ItemsOf(t, f, items)
    requires w in CheckArgs(t, f, t.functions.vals[f][i].rhs, items)
    ensures Justified(t, w)
    decreases |items|
  {
    var rhs := t.functions.vals[f][i].rhs;
    if w in CheckArg(t, f, rhs, items[0].0, items[0].1) {
      CheckArgSound(t, f, i, items[0].0, items[0].1, w);
    } else {
      CheckArgsSound(t, f, i, items[1..], w);
    }
  }

  lemma {:induction false} CheckRulesSound(t: Tables, f: string, k: nat, w: Warning)
    requires WellFormed(t) && f in t.functions.vals && f in t.linearizations.vals
    requires k <= |t.functions.vals[f]|
    requires w in CheckRules(t, f, FunArity(t, f), Items(LinArities(t, f)), t.functions.vals[f][k..])
    ensures Justified(t, w)
    decreases |t.functions.vals[f]| - k
  {
    var all := t.functions.vals[f];
    var n, items := FunArity(t, f), Items(LinArities(t, f));
    var rule := all[k];
    assert all[k..][1..] == all[k + 1..];
    var a := Arity(t.nonterms, rule.lhs);
    if w in CheckRule(t, f, n, items, rule) {
      if w in CheckArgs(t, f, rule.rhs, items) {
        CheckArgsSound(t, f, k, items, w);
      }
    } else {
      CheckRulesSound(t, f, k + 1, w);
    }
  }

  lemma {:induction false} CheckFunctionsSound(t: Tables, fs: seq<string>, w: Warning)
    requires WellFormed(t) && forall i :: 0 <= i < |fs| ==> fs[i] in t.functions.vals
    requires w in CheckFunctions(t, fs)
    ensures Justified(t, w)
    decreases |fs|
  {
    var f := fs[0];
    if w in CheckFunction(t, f) {
      if f in t.linearizations.vals {
        assert t.functions.vals[f][0..] == t.functions.vals[f];
        CheckRulesSound(t, f, 0, w);
      }
    } else {
      CheckFunctionsSound(t, fs[1..], w);
    }
  }

  /** Every warning of the sweep is justified by the dictionaries. */
  lemma {:induction false} ValidateSound(t: Tables, w: Warning)
    requires WellFormed(t)
    requires w in Validate(t)
    ensures Justified(t, w)
  {
    var un, us := UndefinedNonterms(t), UndefinedSeqs(t);
    if w !in (if un != {} then [UndefinedNonterminals(un)] else []) + (if us != {} then [UndefinedSequences(us)] else []) {
      CheckFunctionsSound(t, t.functions.keys, w);
    }
  }

  lemma {:induction false} CheckArgsNoDisagreement(t: Tables, f: string, rhs: seq<string>, items: seq<(nat, int)>)
    ensures forall w :: w in CheckArgs(t, f, rhs, items) ==> !w.ArityDisagrees?
    decreases |items|
  {
    if items != [] {
      CheckArgsNoDisagreement(t, f, rhs, items[1..]);
    }
  }

  lemma {:induction false} CheckRulesAgree(t: Tables, f: string, n: nat, items: seq<(nat, int)>, rules: seq<Rule>)
    requires RulesHaveArity(t.nonterms, rules, n)
    ensures forall w :: w in CheckRules(t, f, n, items, rules) ==> !w.ArityDisagrees?
    decreases |rules|
  {
    if rules != [] {
      CheckArgsNoDisagreement(t, f, rules[0].rhs, items);
      assert RulesHaveArity(t.nonterms, rules[1..], n) by {
        forall i | 0 <= i < |rules| - 1 ensures Arity(t.nonterms, rules[1..][i].lhs) == Some(n) {
          assert rules[1..][i] == rules[i + 1];
        }
      }
      CheckRulesAgree(t, f, n, items, rules[1..]);
    }
  }

  lemma {:induction false} CheckFunctionsAgree(t: Tables, fs: seq<string>)
    requires Consistent(t) && forall i :: 0 <= i < |fs| ==> fs[i] in t.functions.vals
    ensures forall w :: w in CheckFunctions(t, fs) ==> !w.ArityDisagrees?
    decreases |fs|
  {
    if fs != [] {
      var f := fs[0];
      if f in t.linearizations.vals {
        CheckRulesAgree(t, f, FunArity(t, f), Items(LinArities(t, f)), t.functions.vals[f]);
      }
      CheckFunctionsAgree(t, fs[1..]);
    }
  }

  /** Arity agreement makes the sweep's own arity check redundant: it never fires on consistent dictionaries. */
  lemma {:induction false} ConsistentNoArityWarnings(t: Tables)
    requires Consistent(t)
    ensures forall w :: w in Validate(t) ==> !w.ArityDisagrees?
  {
    CheckFunctionsAgree(t, t.functions.keys);
  }

  lemma {:induction false} CheckArgsContains(t: Tables, f: string, rhs: seq<string>, items: seq<(nat, int)>, j: nat)
    requires j < |items|
    ensures forall w :: w in CheckArg(t, f, rhs, items[j].0, items[j].1) ==> w in CheckArgs(t, f, rhs, items)
    decreases |items|
  {
    if j > 0 {
      assert items[1..][j - 1] == items[j];
      CheckArgsContains(t, f, rhs, items[1..], j - 1);
    }
  }

  lemma {:induction false} CheckRulesContains(t: Tables, f: string, n: nat, items: seq<(nat, int)>, rules: seq<Rule>, i: nat)
    requires i < |rules|
    ensures forall w :: w in CheckRule(t, f, n, items, rules[i]) ==> w in CheckRules(t, f, n, items, rules)
    decreases |rules|
  {
    if i > 0 {
      assert rules[1..][i - 1] == rules[i];
      CheckRulesContains(t, f, n, items, rules[1..], i - 1);
    }
  }

  lemma {:induction false} CheckFunctionsContains(t: Tables, fs: seq<string>, i: nat)
    requires WellFormed(t) && forall j :: 0 <= j < |fs| ==> fs[j] in t.functions.vals
    requires i < |fs|
    ensures forall w :: w in CheckFunction(t, fs[i]) ==> w in CheckFunctions(t, fs)
    decreases |fs|
  {
    var head, rest := CheckFunction(t, fs[0]), CheckFunctions(t, fs[1..]);
    assert CheckFunctions(t, fs) == head + rest;
    InConcat(head, rest);
    if i > 0 {
      assert fs[1..][i - 1] == fs[i];
      CheckFunctionsContains(t, fs[1..], i - 1);
    }
  }

  lemma InConcat(a: seq<Warning>, b: seq<Warning>)
    ensures forall w :: w in a ==> w in a + b
    ensures forall w :: w in b ==> w in a + b
  {
  }

  /** Every warning CheckFunction gives for a defined function reaches the sweep's output. */
  lemma ValidateContains(t: Tables, f: string)
    requires WellFormed(t) && f in t.functions.vals
    ensures forall w :: w in CheckFunction(t, f) ==> w in Validate(t)
  {
    var i :| 0 <= i < |t.functions.keys| && t.functions.keys[i] == f;
    CheckFunctionsContains(t, t.functions.keys, i);
  }

  /** The sweep reports every undefined nonterminal and sequence, and every function without a linearization. */
  lemma {:induction false} ValidateReportsUndefined(t: Tables, f: string)
    requires WellFormed(t)
    ensures UndefinedNonterms(t) != {} ==> UndefinedNonterminals(UndefinedNonterms(t)) in Validate(t)
    ensures UndefinedSeqs(t) != {} ==> UndefinedSequences(UndefinedSeqs(t)) in Validate(t)
    ensures f in t.functions.vals && f !in t.linearizations.vals ==> MissingLinearization(f) in Validate(t)
  {
    if f in t.functions.vals {
      ValidateContains(t, f);
    }
  }

  /** The sweep reports every rule whose left-hand side does not have its function's arity. */
  lemma {:induction false} ValidateReportsDisagreement(t: Tables, f: string, i: nat)
    requires WellFormed(t) && f in t.functions.vals && f in t.linearizations.vals
    requires i < |t.functions.vals[f]|
    requires Arity(t.nonterms, t.functions.vals[f][i].lhs) != Some(FunArity(t, f))
    ensures var lhs := t.functions.vals[f][i].lhs;
            ArityDisagrees(lhs, Arity(t.nonterms, lhs), f, FunArity(t, f)) in Validate(t)
  {
    CheckRulesContains(t, f, FunArity(t, f), Items(LinArities(t, f)), t.functions.vals[f], i);
    ValidateContains(t, f);
  }

  /** For every argument the linearization refers to, each rule gets the warning its right-hand side calls for. */
  lemma {:induction false} ValidateReportsArgument(t: Tables, f: string, i: nat, arg: nat)
    requires WellFormed(t) && f in t.functions.vals && f in t.linearizations.vals
    requires i < |t.functions.vals[f]| && arg in LinArities(t, f).vals
    ensures var rhs, maxref := t.functions.vals[f][i].rhs, LinArities(t, f).vals[arg];
            && (arg >= |rhs| ==> ArgumentOutOfRange(f, arg, |rhs|) in Validate(t))
            && (arg < |rhs| && Arity(t.nonterms, rhs[arg]).None? ==> MissingDefinition(rhs[arg]) in Validate(t))
            && (arg < |rhs| && Arity(t.nonterms, rhs[arg]).Some? && Arity(t.nonterms, rhs[arg]).value <= maxref ==>
                  ReferenceExceedsArity(arg, maxref, f, rhs[arg], Arity(t.nonterms, rhs[arg]).value) in Validate(t))
  {
    var m := LinArities(t, f);
    var items := Items(m);
    var j :| 0 <= j < |m.keys| && m.keys[j] == arg;
    var rule := t.functions.vals[f][i];
    CheckArgsContains(t, f, rule.rhs, items, j);
    CheckRulesContains(t, f, FunArity(t, f), items, t.functions.vals[f], i);
    ValidateContains(t, f);
  }

  /** The sequence `s` has a body with a reference to argument `k`. */
  ghost predicate SequenceRefersTo(t: Tables, s: string, k: nat) {
    && s in t.sequences.vals && t.sequences.vals[s].Some?
    && exists i :: 0 <= i < |t.sequences.vals[s].value| && RefersTo(t.sequences.vals[s].value[i], k)
  }

  /** The cached map of sequence `s` has argument `k`. */
  ghost predicate CachedHas(t: Tables, s: string, k: nat) {
    s in t.seqArities && k in t.seqArities[s].vals
  }

  lemma MentionsItems(m: ArgMap, k: nat)
    requires m.Valid()
    ensures Mentions(Items(m), k) <==> k in m.vals
  {
    if k in m.vals {
      var j :| 0 <= j < |m.keys| && m.keys[j] == k;
      assert Items(m)[j].0 == k;
    }
  }

  /** Merging adds exactly the arguments of the cached maps. */
  lemma {:induction false} MergeKeys(t: Tables, m: ArgMap, lin: seq<string>, k: nat)
    requires WellFormed(t) && m.Valid()
    ensures k in MergeArities(t, m, lin).vals <==> k in m.vals || exists j :: 0 <= j < |lin| && CachedHas(t, lin[j], k)
    decreases |lin|
  {
    if lin != [] {
      var m1 := if lin[0] in t.seqArities then Collect(m, Items(t.seqArities[lin[0]])) else m;
      MergeKeys(t, m1, lin[1..], k);
      if lin[0] in t.seqArities {
        CollectKeys(m, Items(t.seqArities[lin[0]]), k);
        MentionsItems(t.seqArities[lin[0]], k);
      }
      if exists j :: 0 <= j < |lin| - 1 && CachedHas(t, lin[1..][j], k) {
        var j :| 0 <= j < |lin| - 1 && CachedHas(t, lin[1..][j], k);
        assert CachedHas(t, lin[j + 1], k);
      }
      if exists j :: 0 <= j < |lin| && CachedHas(t, lin[j], k) {
        var j :| 0 <= j < |lin| && CachedHas(t, lin[j], k);
        if j > 0 {
          assert CachedHas(t, lin[1..][j - 1], k);
        }
      }
    }
  }

  lemma DefaultGrows(m: ArgMap, ps: seq<(nat, int)>, k: nat)
    requires m.Valid()
    ensures Default(m, k) <= Default(Collect(m, ps), k)
  {
    CollectKeys(m, ps, k);
    if k in Collect(m, ps).vals {
      CollectBounds(m, ps, k);
    }
  }

  /** The merged value of an argument is at least its old value and its value in every cached map merged in. */
  lemma {:induction false} MergeBounds(t: Tables, m: ArgMap, lin: seq<string>, k: nat, j: nat)
    requires WellFormed(t) && m.Valid()
    requires k in MergeArities(t, m, lin).vals
    ensures Default(m, k) <= MergeArities(t, m, lin).vals[k]
    ensures j < |lin| && CachedHas(t, lin[j], k) ==> t.seqArities[lin[j]].vals[k] <= MergeArities(t, m, lin).vals[k]
    decreases |lin|
  {
    if lin != [] {
      var m1 := if lin[0] in t.seqArities then Collect(m, Items(t.seqArities[lin[0]])) else m;
      MergeBounds(t, m1, lin[1..], k, if j > 0 then j - 1 else 0);
      if lin[0] in t.seqArities {
        var sa := t.seqArities[lin[0]];
        DefaultGrows(m, Items(sa), k);
        if k in sa.vals {
          MentionsItems(sa, k);
          CollectKeys(m, Items(sa), k);
          CollectBounds(m, Items(sa), k);
          var i :| 0 <= i < |sa.keys| && sa.keys[i] == k;
          assert Items(sa)[i] == (k, sa.vals[k]);
        }
      }
      if 0 < j < |lin| {
        assert lin[1..][j - 1] == lin[j];
      }
    }
  }

  /** The merged value of an argument is its old value or its value in one of the cached maps. */
  lemma {:induction false} MergeAttained(t: Tables, m: ArgMap, lin: seq<string>, k: nat) returns (j: nat)
    requires WellFormed(t) && m.Valid()
    requires k in MergeArities(t, m, lin).vals
    ensures var v := MergeArities(t, m, lin).vals[k];
            v == Default(m, k) || (j < |lin| && CachedHas(t, lin[j], k) && t.seqArities[lin[j]].vals[k] == v)
    decreases |lin|
  {
    j := 0;
    if lin != [] {
      var m1 := if lin[0] in t.seqArities then Collect(m, Items(t.seqArities[lin[0]])) else m;
      var v := MergeArities(t, m, lin).vals[k];
      var j1 := MergeAttained(t, m1, lin[1..], k);
      if v != Default(m1, k) {
        j := j1 + 1;
        assert lin[1..][j1] == lin[j];
      } else if lin[0] in t.seqArities {
        var sa := t.seqArities[lin[0]];
        CollectKeys(m, Items(sa), k);
        if k in Collect(m, Items(sa)).vals {
          CollectAttained(m, Items(sa), k);
          if v != Default(m, k) {
            var i :| 0 <= i < |Items(sa)| && Items(sa)[i] == (k, v);
            assert sa.keys[i] == k;
          }
        }
      }
    }
  }

  /**
    When the cached maps are up to date and every sequence a linearization
    names is declared, the arguments of a linearization's map are exactly
    those its sequence bodies refer to.
   */
  lemma {:induction false} LinAritiesKeys(t: Tables, f: string, k: nat)
    requires WellFormed(t) && SequenceAritiesCached(t) && SequencesRegistered(t) && f in t.linearizations.vals
    ensures var lin := t.linearizations.vals[f];
            k in LinArities(t, f).vals <==> exists j :: 0 <= j < |lin| && SequenceRefersTo(t, lin[j], k)
  {
    var lin := t.linearizations.vals[f];
    MergeKeys(t, Empty(), lin, k);
    forall j | 0 <= j < |lin| ensures CachedHas(t, lin[j], k) <==> SequenceRefersTo(t, lin[j], k) {
      var s := lin[j];
      assert LinRegistered(t.sequences, lin);
      if t.sequences.vals[s].Some? {
        var body := t.sequences.vals[s].value;
        CollectKeys(Empty(), RefPairs(body), k);
        MentionsToken(body, k);
      }
    }
  }

  /**
    Under the same conditions the value of an argument in a linearization's map is
    at least every reference made to it by the linearization's sequences.
   */
  lemma {:induction false} LinAritiesBound(t: Tables, f: string, j: nat, i: nat)
    requires WellFormed(t) && SequenceAritiesCached(t) && SequencesRegistered(t) && f in t.linearizations.vals
    requires j < |t.linearizations.vals[f]|
    requires var s := t.linearizations.vals[f][j];
             s in t.sequences.vals && t.sequences.vals[s].Some? &&
             i < |t.sequences.vals[s].value| && t.sequences.vals[s].value[i].Ref?
    ensures var tok := t.sequences.vals[t.linearizations.vals[f][j]].value[i];
            tok.arg in LinArities(t, f).vals && tok.ref <= LinArities(t, f).vals[tok.arg]
  {
    var lin := t.linearizations.vals[f];
    var body := t.sequences.vals[lin[j]].value;
    var tok := body[i];
    CollectTokenBounds(Empty(), body);
    MergeKeys(t, Empty(), lin, tok.arg);
    MergeBounds(t, Empty(), lin, tok.arg, j);
  }

  /**
    Under the same conditions the value of an argument in a linearization's map is
    a reference one of its sequences makes: with the bound above, it is the
    largest reference to that argument.
   */
  lemma {:induction false} LinAritiesAttained(t: Tables, f: string, k: nat) returns (j: nat, i: nat)
    requires WellFormed(t) && SequenceAritiesCached(t) && SequencesRegistered(t) && f in t.linearizations.vals
    requires k in LinArities(t, f).vals
    ensures var lin := t.linearizations.vals[f];
            && j < |lin| && lin[j] in t.sequences.vals && t.sequences.vals[lin[j]].Some?
            && i < |t.sequences.vals[lin[j]].value|
            && IsPair(t.sequences.vals[lin[j]].value[i], k, LinArities(t, f).vals[k])
  {
    var lin := t.linearizations.vals[f];
    LinAritiesNonNegative(t, f, k);
    j := MergeAttained(t, Empty(), lin, k);
    assert lin[j] in t.sequences.vals;
    var body := t.sequences.vals[lin[j]].value;
    i := CollectTokenAttained(Empty(), body, k);
  }

  /** Every value of a linearization's map is some reference, so none is the default -1. */
  lemma LinAritiesNonNegative(t: Tables, f: string, k: nat)
    requires WellFormed(t) && SequenceAritiesCached(t) && SequencesRegistered(t) && f in t.linearizations.vals
    requires k in LinArities(t, f).vals
    ensures LinArities(t, f).vals[k] >= 0
  {
    var lin := t.linearizations.vals[f];
    LinAritiesKeys(t, f, k);
    var j0 :| 0 <= j0 < |lin| && SequenceRefersTo(t, lin[j0], k);
    var b0 := t.sequences.vals[lin[j0]].value;
    var i0 :| 0 <= i0 < |b0| && RefersTo(b0[i0], k);
    LinAritiesBound(t, f, j0, i0);
  }
}
