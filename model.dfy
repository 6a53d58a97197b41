/**
  The eight dictionaries `read_grammar` fills in while it reads, the grammar
  it returns, and the invariant that relates the dictionaries once every
  line read so far has been accepted.
 */
module Model {
  import opened Wrappers
  import opened OrderedMaps
  import opened Sequences
  import opened Structure
  import opened Arities

  type Nonterms = OMap<string, Option<nat>>

  /**
    `pragmas`, `functions`, `linearizations`, `sequences`, `scores` and
    `nonterms` are returned, so their insertion order is kept;
    `fun_arities` and `seq_arities` are only looked up.
    A sequence or nonterminal that has been mentioned but not yet defined
    maps to None, as in the source.
   */
  datatype Tables = Tables(
    pragmas: OMap<Option<string>, seq<string>>,
    functions: OMap<string, seq<Rule>>,
    linearizations: OMap<string, seq<string>>,
    sequences: OMap<string, Option<seq<Token>>>,
    scores: OMap<string, Score>,
    nonterms: Nonterms,
    funArities: map<string, nat>,
    seqArities: map<string, ArgMap>)

  /** The dictionary `read_grammar` returns. */
  datatype Grammar = Grammar(
    pragmas: OMap<Option<string>, seq<string>>,
    functions: OMap<string, seq<Rule>>,
    linearizations: OMap<string, seq<string>>,
    sequences: OMap<string, Option<seq<Token>>>,
    scores: OMap<string, Score>,
    nonterms: Nonterms)

  function EmptyTables(): (t: Tables)
    ensures t.pragmas.vals == map[] && t.functions.vals == map[] && t.linearizations.vals == map[]
    ensures t.sequences.vals == map[] && t.scores.vals == map[] && t.nonterms.vals == map[]
    ensures t.funArities == map[] && t.seqArities == map[]
  {
    Tables(Empty(), Empty(), Empty(), Empty(), Empty(), Empty(), map[], map[])
  }

  function GrammarOf(t: Tables): (g: Grammar)
    ensures g.functions == t.functions && g.linearizations == t.linearizations
    ensures g.sequences == t.sequences && g.nonterms == t.nonterms
    ensures g.pragmas == t.pragmas && g.scores == t.scores
  {
    Grammar(t.pragmas, t.functions, t.linearizations, t.sequences, t.scores, t.nonterms)
  }

  /** `nonterms.get(x)`: None both for an absent key and for an unknown arity. */
  function Arity(nt: Nonterms, x: string): (a: Option<nat>)
    ensures x in nt.vals ==> a == nt.vals[x]
    ensures x !in nt.vals ==> a.None?
  {
    if x in nt.vals then nt.vals[x] else None
  }

  /** The max-argument map `collect_max_arities` builds for one sequence body. */
  function BodyArities(body: seq<Token>): ArgMap {
    Collect(Empty(), RefPairs(body))
  }

  ghost predicate WellFormed(t: Tables) {
    && t.pragmas.Valid() && t.functions.Valid() && t.linearizations.Valid()
    && t.sequences.Valid() && t.scores.Valid() && t.nonterms.Valid()
    && (forall s :: s in t.seqArities ==> t.seqArities[s].Valid())
  }

  /** `fun_arities` holds the length of every linearization and nothing else. */
  ghost predicate FunctionAritiesCached(t: Tables) {
    && (forall f :: f in t.funArities <==> f in t.linearizations.vals)
    && (forall f :: f in t.funArities ==> t.funArities[f] == |t.linearizations.vals[f]|)
  }

  /** `seq_arities` holds the max-argument map of every sequence that has a body. */
  ghost predicate SequenceAritiesCached(t: Tables) {
    && (forall s :: s in t.seqArities <==> s in t.sequences.vals && t.sequences.vals[s].Some?)
    && (forall s :: s in t.seqArities ==> t.seqArities[s] == BodyArities(t.sequences.vals[s].value))
  }

  /** Every rule of `f` has a left-hand side whose arity is `n`. */
  ghost predicate RulesHaveArity(nt: Nonterms, rules: seq<Rule>, n: nat) {
    forall i :: 0 <= i < |rules| ==> Arity(nt, rules[i].lhs) == Some(n)
  }

  /** Arity agreement: once a function has a linearization, all its rules' left-hand sides have that arity. */
  ghost predicate AritiesAgree(t: Tables) {
    forall f :: f in t.functions.vals && f in t.funArities ==>
      RulesHaveArity(t.nonterms, t.functions.vals[f], t.funArities[f])
  }

  /** Every right-hand-side symbol of the rules is a key of `nonterms`. */
  ghost predicate RulesRegistered(nt: Nonterms, rules: seq<Rule>) {
    forall i, j :: 0 <= i < |rules| && 0 <= j < |rules[i].rhs| ==> rules[i].rhs[j] in nt.vals
  }

  ghost predicate RhsRegistered(t: Tables) {
    forall f :: f in t.functions.vals ==> RulesRegistered(t.nonterms, t.functions.vals[f])
  }

  /** Every sequence identifier a linearization names is a key of `sequences`. */
  ghost predicate LinRegistered(seqs: OMap<string, Option<seq<Token>>>, lin: seq<string>) {
    forall i :: 0 <= i < |lin| ==> lin[i] in seqs.vals
  }

  ghost predicate SequencesRegistered(t: Tables) {
    forall f :: f in t.linearizations.vals ==> LinRegistered(t.sequences, t.linearizations.vals[f])
  }

  /** What holds of the dictionaries after every accepted line. */
  ghost predicate Consistent(t: Tables) {
    && WellFormed(t)
    && FunctionAritiesCached(t)
    && SequenceAritiesCached(t)
    && AritiesAgree(t)
    && RhsRegistered(t)
    && SequencesRegistered(t)
  }

  /**
    How `nonterms` may change during a read: keys are only added, and a
    known arity is never changed.
   */
  ghost predicate NontermsGrow(a: Nonterms, b: Nonterms) {
    && (forall x :: x in a.vals ==> x in b.vals)
    && (forall x :: x in a.vals && a.vals[x].Some? ==> b.vals[x] == a.vals[x])
  }

  lemma NontermsGrowArity(a: Nonterms, b: Nonterms, x: string)
    requires NontermsGrow(a, b)
    requires Arity(a, x).Some?
    ensures Arity(b, x) == Arity(a, x)
  {
  }

  lemma NontermsGrowTransitive(a: Nonterms, b: Nonterms, c: Nonterms)
    requires NontermsGrow(a, b) && NontermsGrow(b, c)
    ensures NontermsGrow(a, c)
  {
  }

  lemma RulesHaveArityGrow(a: Nonterms, b: Nonterms, rules: seq<Rule>, n: nat)
    requires NontermsGrow(a, b) && RulesHaveArity(a, rules, n)
    ensures RulesHaveArity(b, rules, n)
  {
    forall i | 0 <= i < |rules| ensures Arity(b, rules[i].lhs) == Some(n) {
      NontermsGrowArity(a, b, rules[i].lhs);
    }
  }

  lemma RulesRegisteredGrow(a: Nonterms, b: Nonterms, rules: seq<Rule>)
    requires NontermsGrow(a, b) && RulesRegistered(a, rules)
    ensures RulesRegistered(b, rules)
  {
  }

  lemma {:induction false} EmptyConsistent()
    ensures Consistent(EmptyTables())
  {
  }
}
