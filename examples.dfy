/**
  Concrete inputs worked through the model.
 */
module Worked {
  import opened Wrappers
  import opened OrderedMaps
  import opened Errors
  import opened Lexing
  import opened Sequences
  import opened Structure
  import opened Model
  import opened Steps

  const Body: string := "\"hi there\" 0:1 'x'"

  lemma FirstToken()
    ensures MatchToken(Body) == Some((Quoted("hi there"), 11))
  {
    var s := Body;
    assert s[0] == '"';
    assert QuoteEnd(s, '"', 1) == Some(9);
    assert SpaceRun(s, 10) == 11;
    assert Separator(s, 10) == Some(11);
    assert s[1..9] == "hi there";
  }

  lemma SecondToken()
    ensures MatchToken("0:1 'x'") == Some((ArgRef(0, 1), 4))
  {
    var s := "0:1 'x'";
    assert DigitRun(s, 0) == 1;
    assert DigitRun(s, 2) == 3;
    assert SpaceRun(s, 3) == 4;
    assert Separator(s, 3) == Some(4);
    assert NumeralAt(s, 0, 1) == 0 && NumeralAt(s, 2, 3) == 1;
  }

  lemma ThirdToken()
    ensures MatchToken("'x'") == Some((Quoted("x"), 3))
  {
    var s := "'x'";
    assert QuoteEnd(s, '\'', 1) == Some(2);
    assert Separator(s, 3) == Some(3);
    assert s[1..2] == "x";
  }

  /** A literal body without backslashes or line breaks stands for itself. */
  lemma {:induction false} UnescapePlain(b: string)
    requires forall i :: 0 <= i < |b| ==> b[i] != '\\' && b[i] != '\n' && b[i] != '\r'
    ensures Unescape(b) == Some(b)
  {
    if b != [] {
      UnescapePlain(b[1..]);
      assert [b[0]] + b[1..] == b;
    }
  }

  /** Scanning a text that is three tokens in a row. */
  lemma ScanThree(t: string, l1: Lexeme, n1: nat, k1: Token, l2: Lexeme, n2: nat, k2: Token, l3: Lexeme, n3: nat, k3: Token)
    requires t != [] && MatchToken(t) == Some((l1, n1)) && Evaluate(l1) == Ok(k1)
    requires n1 <= |t| && t[n1..] != [] && n2 <= |t[n1..]| && t[n1..][n2..] != [] && n3 <= |t[n1..][n2..]|
    requires MatchToken(t[n1..]) == Some((l2, n2)) && Evaluate(l2) == Ok(k2)
    requires MatchToken(t[n1..][n2..]) == Some((l3, n3)) && Evaluate(l3) == Ok(k3)
    requires t[n1..][n2..][n3..] == []
    ensures Scan(t) == Ok([k1, k2, k3])
  {
    var t1 := t[n1..];
    var t2 := t1[n2..];
    assert Scan(t2[n3..]) == Ok([]);
    ScanStep(t2, l3, n3, k3);
    assert Prepend([k3], Ok([])) == Ok([k3]) by { assert [k3] + [] == [k3]; }
    assert Scan(t2) == Ok([k3]);
    ScanStep(t1, l2, n2, k2);
    assert Prepend([k2], Ok([k3])) == Ok([k2, k3]) by { assert [k2] + [k3] == [k2, k3]; }
    assert Scan(t1) == Ok([k2, k3]);
    ScanStep(t, l1, n1, k1);
    assert [k1] + [k2, k3] == [k1, k2, k3];
  }

  lemma BodyPieces()
    ensures Body != [] && Body[11..] == "0:1 'x'" && Body[11..][4..] == "'x'" && Body[11..][4..][3..] == []
  {
  }

  lemma PlainLiterals()
    ensures Evaluate(Quoted("hi there")) == Ok(Str("hi there"))
    ensures Evaluate(Quoted("x")) == Ok(Str("x"))
  {
    UnescapePlain("hi there");
    UnescapePlain("x");
  }

  /** A double-quoted string with a space, an argument reference and a single-quoted string. */
  lemma TokenizerExample()
    ensures Scan(Body) == Ok([Str("hi there"), Ref(0, 1), Str("x")])
  {
    FirstToken();
    SecondToken();
    ThirdToken();
    PlainLiterals();
    BodyPieces();
    ScanThree(Body, Quoted("hi there"), 11, Str("hi there"), ArgRef(0, 1), 4, Ref(0, 1), Quoted("x"), 3, Str("x"));
  }

  /** A pragma whose marker is followed by whitespace has no name: the whole remainder is its payload. */
  lemma UnnamedPragmaExample()
    ensures ClassifyLine(": encoding utf8") == Pragma(None, "encoding utf8")
  {
    var line := ": encoding utf8";
    assert TrimLeft(line) == line;
    assert line[1..] == " encoding utf8";
    ClassifyUnnamed(line);
    StripPayload();
  }

  lemma ClassifyUnnamed(line: string)
    requires TrimLeft(line) == line && |line| >= 2 && line[0] == ':' && IsSpace(line[1])
    ensures ClassifyLine(line) == Pragma(None, Strip(line[1..]))
  {
  }

  lemma StripPayload()
    ensures Strip(" encoding utf8") == "encoding utf8"
  {
    assert TrimLeft(" encoding utf8") == "encoding utf8";
    assert TrimRight("encoding utf8") == "encoding utf8";
  }

  /** A sequence `x` cannot then be used as the left-hand side of a rule. */
  lemma SequenceThenRuleExample()
    ensures var t1 := SeqStep(EmptyTables(), "x", [Str("lit")]);
            t1.Ok? && RuleStep(t1.value, "y", Rule("x", ["z"])) == Err(NonterminalClash("x"))
  {
    var t1 := SeqStep(EmptyTables(), "x", [Str("lit")]).value;
    assert "x" in t1.sequences.vals;
    var t3 := RegisterRhs(t1, ["z"]);
    assert !IsFunctionOrSequence(t1, "z");
    assert t3.Ok? && t3.value.sequences == t1.sequences;
  }

  /** The dictionaries after the line `f : S <- A`. */
  function AfterRule(): Tables {
    EmptyTables().(functions := OMap(["f"], map["f" := [Rule("S", ["A"])]]),
                   nonterms := OMap(["A"], map["A" := None]))
  }

  /** The dictionaries once `f : S <- A` has been stored, before its right-hand side is registered. */
  function RuleStored(): Tables {
    EmptyTables().(functions := OMap(["f"], map["f" := [Rule("S", ["A"])]]))
  }

  /** Registering the right-hand side `A` adds it with unknown arity. */
  lemma RegisterExample()
    ensures RegisterRhs(RuleStored(), ["A"]) == Ok(AfterRule())
  {
    var t1 := RuleStored();
    assert t1.nonterms.SetDefault("A", None) == AfterRule().nonterms by {
      assert [] + ["A"] == ["A"];
    }
    RegisterRhsUnfold(t1, ["A"]);
    assert ["A"][1..] == [];
  }

  /** A rule for a function without a linearization: store it, register its right-hand side, check. */
  lemma RuleStepUnlinearized(t: Tables, ident: string, rule: Rule)
    requires WellFormed(t) && ident !in t.funArities
    ensures RuleStep(t, ident, rule) ==
            FinishRule(RegisterRhs(t.(functions := t.functions.Put(ident, t.functions.Get(ident).GetOr([]) + [rule])), rule.rhs), ident, rule)
  {
  }

  /** `f : S <- A` on empty dictionaries records the rule and registers `A` with unknown arity. */
  lemma RuleExample()
    ensures RuleStep(EmptyTables(), "f", Rule("S", ["A"])) == Ok(AfterRule())
  {
    var t0, rule := EmptyTables(), Rule("S", ["A"]);
    StoreExample();
    RuleStepUnlinearized(t0, "f", rule);
    RegisterExample();
    assert FinishRule(Ok(AfterRule()), "f", rule) == Ok(AfterRule());
  }

  lemma StoreExample()
    ensures var t0 := EmptyTables();
            t0.(functions := t0.functions.Put("f", t0.functions.Get("f").GetOr([]) + [Rule("S", ["A"])])) == RuleStored()
  {
    var t0 := EmptyTables();
    assert t0.functions.Get("f").GetOr([]) + [Rule("S", ["A"])] == [Rule("S", ["A"])];
    assert [] + ["f"] == ["f"];
  }

  /** The dictionaries after `f : S <-`. */
  function AfterEmptyRule(): Tables {
    EmptyTables().(functions := OMap(["f"], map["f" := [Rule("S", [])]]))
  }

  /**
    `f : S <-` and then `S : X <-` are both accepted: `f` has no arity yet,
    so `S` is never entered into `nonterms`, and `S` becomes a function
    although it is the left-hand side of a rule.
   */
  lemma FunctionNamedLikeNonterminalExample()
    ensures RuleStep(EmptyTables(), "f", Rule("S", [])) == Ok(AfterEmptyRule())
    ensures var t := RuleStep(AfterEmptyRule(), "S", Rule("X", []));
            && t.Ok? && "S" in t.value.functions.vals
            && t.value.functions.vals["f"] == [Rule("S", [])]
  {
    var t0 := EmptyTables();
    assert t0.functions.Get("f").GetOr([]) + [Rule("S", [])] == [Rule("S", [])];
    assert [] + ["f"] == ["f"];
    RuleStepUnlinearized(t0, "f", Rule("S", []));
    assert FinishRule(Ok(AfterEmptyRule()), "f", Rule("S", [])) == Ok(AfterEmptyRule());
    var t1 := AfterEmptyRule();
    RuleStepUnlinearized(t1, "S", Rule("X", []));
    var t2 := t1.(functions := t1.functions.Put("S", t1.functions.Get("S").GetOr([]) + [Rule("X", [])]));
    assert !IsFunctionOrSequence(t2, "X");
    assert "S" !in t2.nonterms.vals && "S" !in t2.sequences.vals;
  }

  /** The dictionaries after `f : S <- A` and `f = l1`. */
  function AfterLinearization(): Tables {
    AfterRule().(linearizations := OMap(["f"], map["f" := ["l1"]]), funArities := map["f" := 1],
                 nonterms := OMap(["A", "S"], map["A" := None, "S" := Some(1)]),
                 sequences := OMap(["l1"], map["l1" := None]))
  }

  /** `f = l1` after `f : S <- A`: `S` gets arity 1 and `l1` is declared without a body. */
  lemma LinearizationExample()
    ensures LinStep(AfterRule(), "f", ["l1"]) == Ok(AfterLinearization())
  {
    var t := AfterRule();
    var t1 := t.(linearizations := OMap(["f"], map["f" := ["l1"]]), funArities := map["f" := 1]);
    assert t.linearizations.Put("f", ["l1"]) == t1.linearizations by {
      assert [] + ["f"] == ["f"];
    }
    var t2 := t1.(nonterms := OMap(["A", "S"], map["A" := None, "S" := Some(1)]));
    assert t1.nonterms.Put("S", Some(1)) == t2.nonterms by {
      assert ["A"] + ["S"] == ["A", "S"];
    }
    assert t.functions.Get("f").GetOr([]) == [Rule("S", ["A"])];
    assert Propagate(t2, [], "f", 1) == Ok(t2);
    assert [Rule("S", ["A"])][1..] == [];
    assert Propagate(t1, [Rule("S", ["A"])], "f", 1) == Ok(t2);
    var seqs := DeclareSequences(t2.sequences, ["l1"]);
    assert ["l1"][1..] == [];
    assert seqs == OMap(["l1"], map["l1" := None]) by {
      assert [] + ["l1"] == ["l1"];
    }
    assert FinishLin(Ok(t2), "f", ["l1"]) == Ok(AfterLinearization());
  }

  /**
    A rule that gives no arity to its left-hand side, followed by a
    linearization of two sequences: the read goes on and `S` gets arity 2.
   */
  lemma RuleWithoutArityExample()
    ensures var t2 := LinStep(AfterRule(), "f", ["l1", "l2"]);
            t2.Ok? && Arity(t2.value.nonterms, "S") == Some(2)
  {
    var t := AfterRule();
    var t1 := t.(linearizations := t.linearizations.Put("f", ["l1", "l2"]), funArities := map["f" := 2]);
    var t2 := t1.(nonterms := t1.nonterms.Put("S", Some(2)));
    assert t.functions.Get("f").GetOr([]) == [Rule("S", ["A"])];
    assert Propagate(t2, [], "f", 2) == Ok(t2);
    assert [Rule("S", ["A"])][1..] == [];
    assert Propagate(t1, [Rule("S", ["A"])], "f", 2) == Ok(t2);
    DeclareSequencesAdds(t2.sequences, ["l1", "l2"]);
    assert "f" !in DeclareSequences(t2.sequences, ["l1", "l2"]).vals;
    assert "f" !in t2.nonterms.vals;
  }
}
