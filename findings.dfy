/**
  Three places where `read_grammar`, as written, lets a Python exception
  escape instead of the error or warning its authors evidently meant: the
  two duplicate messages that call a string, and two lookups of the
  deferred sweep that run past what the grammar defines. Each is modelled
  as written, next to the corrected step the rest of the model uses.
 */
module Findings {
  import opened Wrappers
  import opened OrderedMaps
  import opened Errors
  import opened Sequences
  import opened Structure
  import opened Arities
  import opened Model
  import opened Steps
  import opened Validation
  import opened Worked

  /** An exception that escapes the reader undecorated. */
  datatype Crash =
    | NotCallable                        // TypeError: 'str' object is not callable
    | KeyError(key: string)
    | IndexError(index: nat, length: nat)

  /** What one line does when the source is run as written. */
  datatype Outcome = Accepted(tables: Tables) | Rejected(error: Error) | Crashed(crash: Crash)

  function Lift(r: Result<Tables, Error>): Outcome {
    if r.Ok? then Accepted(r.value) else Rejected(r.error)
  }

  /** A linearization line as written: a second linearization of `ident` calls the message string. */
  function LinStepAsWritten(t: Tables, ident: string, lin: seq<string>): Outcome
    requires WellFormed(t)
  {
    if ident in t.linearizations.vals then Crashed(NotCallable) else Lift(LinStep(t, ident, lin))
  }

  /** A score line as written: a second score for `ident` calls the message string. */
  function ScoreStepAsWritten(t: Tables, ident: string, keyword: string, rest: string): Outcome
    requires WellFormed(t)
  {
    match ParseScore(keyword)
    case Err(e) => Rejected(e)
    case Ok(score) =>
      if rest != [] then Rejected(ExtraScoreInfo(rest))
      else if ident in t.scores.vals then Crashed(NotCallable)
      else Accepted(t.(scores := t.scores.Put(ident, score)))
  }

  /** As written and corrected agree on every score line except a duplicate. */
  lemma ScoreStepAsWrittenAgrees(t: Tables, ident: string, keyword: string, rest: string)
    requires WellFormed(t)
    ensures !(ParseScore(keyword).Ok? && rest == [] && ident in t.scores.vals) ==>
              ScoreStepAsWritten(t, ident, keyword, rest) == Lift(ScoreStep(t, ident, keyword, rest))
    ensures ParseScore(keyword).Ok? && rest == [] && ident in t.scores.vals ==>
              && ScoreStepAsWritten(t, ident, keyword, rest) == Crashed(NotCallable)
              && ScoreStep(t, ident, keyword, rest) == Err(Duplicate(ScoreDecl, ident))
  {
  }

  /** `f = a` read twice. */
  lemma DuplicateLinearizationCrashes()
    ensures var t1 := LinStep(EmptyTables(), "f", ["a"]);
            && t1.Ok?
            && LinStepAsWritten(t1.value, "f", ["a"]) == Crashed(NotCallable)
            && LinStep(t1.value, "f", ["a"]) == Err(Duplicate(LinearizationDecl, "f"))
  {
    var t0 := EmptyTables();
    assert Propagate(t0.(linearizations := t0.linearizations.Put("f", ["a"]), funArities := map["f" := 1]), [], "f", 1).Ok?;
  }

  /** `s 1` read twice. */
  lemma DuplicateScoreCrashes()
    ensures var t1 := ScoreStep(EmptyTables(), "s", "1", []);
            && t1.Ok?
            && ScoreStepAsWritten(t1.value, "s", "1", []) == Crashed(NotCallable)
            && ScoreStep(t1.value, "s", "1", []) == Err(Duplicate(ScoreDecl, "s"))
  {
    assert ParseInt("1") == Some(1);
  }

  /**
    The merge of the sweep as written: `seq_arities[seq]` for each sequence
    of the linearization, which has no entry for a sequence without a body.
   */
  function MergeAritiesAsWritten(t: Tables, m: ArgMap, lin: seq<string>): Result<ArgMap, Crash>
    requires WellFormed(t) && m.Valid()
    decreases |lin|
  {
    if lin == [] then Ok(m)
    else if lin[0] !in t.seqArities then Err(KeyError(lin[0]))
    else MergeAritiesAsWritten(t, Collect(m, Items(t.seqArities[lin[0]])), lin[1..])
  }

  /**
    The merge as written fails exactly when the linearization names a
    sequence without a cached map, at the first such sequence; otherwise it
    is the corrected merge.
   */
  lemma {:induction false} MergeAritiesAsWrittenAgrees(t: Tables, m: ArgMap, lin: seq<string>)
    requires WellFormed(t) && m.Valid()
    ensures MergeAritiesAsWritten(t, m, lin).Ok? <==> forall j :: 0 <= j < |lin| ==> lin[j] in t.seqArities
    ensures MergeAritiesAsWritten(t, m, lin).Ok? ==> MergeAritiesAsWritten(t, m, lin).value == MergeArities(t, m, lin)
    ensures MergeAritiesAsWritten(t, m, lin).Err? ==>
              exists j :: && 0 <= j < |lin| && lin[j] !in t.seqArities
                          && MergeAritiesAsWritten(t, m, lin).error == KeyError(lin[j])
    decreases |lin|
  {
    if lin == [] {
    } else if lin[0] !in t.seqArities {
      assert MergeAritiesAsWritten(t, m, lin).error == KeyError(lin[0]);
    } else {
      var m1 := Collect(m, Items(t.seqArities[lin[0]]));
      var tail := lin[1..];
      MergeAritiesAsWrittenAgrees(t, m1, tail);
      assert MergeAritiesAsWritten(t, m, lin) == MergeAritiesAsWritten(t, m1, tail);
      assert MergeArities(t, m, lin) == MergeArities(t, m1, tail);
      assert forall j :: 1 <= j < |lin| ==> lin[j] == tail[j - 1];
      if MergeAritiesAsWritten(t, m1, tail).Err? {
        var j :| 0 <= j < |tail| && tail[j] !in t.seqArities && MergeAritiesAsWritten(t, m1, tail).error == KeyError(tail[j]);
        assert lin[j + 1] == tail[j];
      }
    }
  }

  /**
    One argument check as written: after the out-of-range warning the
    source goes on to look up `rhs[arg]`.
   */
  function CheckArgAsWritten(t: Tables, f: string, rhs: seq<string>, arg: nat, maxref: int): (seq<Warning>, Option<Crash>) {
    if arg >= |rhs| then ([ArgumentOutOfRange(f, arg, |rhs|)], Some(IndexError(arg, |rhs|)))
    else (CheckArg(t, f, rhs, arg, maxref), None)
  }

  /** As written and corrected emit the same warnings; the written one crashes exactly on an argument out of range. */
  lemma CheckArgAsWrittenAgrees(t: Tables, f: string, rhs: seq<string>, arg: nat, maxref: int)
    ensures CheckArgAsWritten(t, f, rhs, arg, maxref).0 == CheckArg(t, f, rhs, arg, maxref)
    ensures CheckArgAsWritten(t, f, rhs, arg, maxref).1.Some? <==> arg >= |rhs|
  {
  }

  /** `l1` is the one sequence declared without a body. */
  lemma UndefinedAfterLinearization()
    ensures UndefinedSeqs(AfterLinearization()) == {"l1"}
  {
    var t := AfterLinearization();
    assert "l1" in UndefinedSeqs(t);
    assert forall s :: s in UndefinedSeqs(t) ==> s == "l1";
  }

  /** `f : S <- A` followed by `f = l1`, with no body for `l1`: the merge as written looks up `l1` and fails. */
  lemma UndefinedSequenceCrashes()
    ensures LinStep(AfterRule(), "f", ["l1"]) == Ok(AfterLinearization())
    ensures MergeAritiesAsWritten(AfterLinearization(), Empty(), ["l1"]) == Err(KeyError("l1"))
  {
    LinearizationExample();
  }

  /** The corrected sweep reports `l1` as undefined and merges nothing for `f`. */
  lemma UndefinedSequenceWarned()
    ensures UndefinedSequences({"l1"}) in Validate(AfterLinearization())
    ensures LinArities(AfterLinearization(), "f").vals == map[]
  {
    var t := AfterLinearization();
    UndefinedAfterLinearization();
    ValidateReportsUndefined(t, "f");
    assert ["l1"][1..] == [];
    assert LinArities(t, "f") == MergeArities(t, Empty(), []);
  }

  /** The dictionaries after `f : S <- A`, `f = l1` and `l1 -> 1:0`. */
  function AfterSequence(): Tables {
    AfterLinearization().(sequences := OMap(["l1"], map["l1" := Some([Ref(1, 0)])]),
                          seqArities := map["l1" := BodyArities([Ref(1, 0)])])
  }

  lemma SequenceExample()
    ensures SeqStep(AfterLinearization(), "l1", [Ref(1, 0)]) == Ok(AfterSequence())
  {
    var t := AfterLinearization();
    assert t.sequences.Put("l1", Some([Ref(1, 0)])) == AfterSequence().sequences by {
      assert map["l1" := None]["l1" := Some([Ref(1, 0)])] == map["l1" := Some([Ref(1, 0)])];
    }
    assert t.seqArities["l1" := BodyArities([Ref(1, 0)])] == AfterSequence().seqArities;
  }

  /** The max-argument map of the body `1:0`. */
  lemma OneRefArities()
    ensures BodyArities([Ref(1, 0)]) == OMap([1], map[1 := 0])
  {
    assert [Ref(1, 0)][..0] == [];
    assert RefPairs([Ref(1, 0)]) == [(1, 0)];
    assert [(1, 0)][..0] == [];
    assert Collect(Empty(), [(1, 0)]) == Empty().Put(1, 0);
    assert [] + [1] == [1];
  }

  /** The merged map of a linearization whose one sequence refers to argument 1. */
  lemma LinAritiesOfOneRef(t: Tables)
    requires WellFormed(t) && "f" in t.linearizations.vals && t.linearizations.vals["f"] == ["l1"]
    requires "l1" in t.seqArities && t.seqArities["l1"] == BodyArities([Ref(1, 0)])
    ensures 1 in LinArities(t, "f").vals
  {
    OneRefArities();
    var body := OMap([1], map[1 := 0]);
    var m1 := Collect(Empty(), Items(body));
    assert ["l1"][1..] == [];
    assert MergeArities(t, Empty(), ["l1"]) == MergeArities(t, m1, []);
    assert Items(body)[0].0 == 1;
    CollectKeys(Empty(), Items(body), 1);
  }

  /** `f : S <- A`, `f = l1` and `l1 -> 1:0`: the linearization refers to argument 1 of a one-symbol right-hand side. */
  lemma OutOfRangeArgumentCrashes()
    ensures SeqStep(AfterLinearization(), "l1", [Ref(1, 0)]) == Ok(AfterSequence())
    ensures 1 in LinArities(AfterSequence(), "f").vals
    ensures CheckArgAsWritten(AfterSequence(), "f", ["A"], 1, LinArities(AfterSequence(), "f").vals[1]).1 == Some(IndexError(1, 1))
    ensures ArgumentOutOfRange("f", 1, 1) in Validate(AfterSequence())
  {
    var t := AfterSequence();
    SequenceExample();
    LinAritiesOfOneRef(t);
    ValidateReportsArgument(t, "f", 0, 1);
  }
}
