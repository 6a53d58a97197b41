/**
  Characters, identifiers, whitespace splitting and decimal numerals.
  Character classes are the ASCII part of Python's: `str.isspace`,
  `str.isalnum` and the regular-expression class `\d`.
 */
module Lexing {

  /** Space, \t \n \v \f \r and the separators \x1c..\x1f. */
  predicate IsSpace(c: char) {
    c == ' ' || ('\t' <= c <= '\r') || ('\U{1C}' <= c <= '\U{1F}')
  }

  predicate IsDigit(c: char) {
    '0' <= c <= '9'
  }

  predicate IsAlnum(c: char) {
    IsDigit(c) || ('a' <= c <= 'z') || ('A' <= c <= 'Z')
  }

  /** An identifier starts with an alphanumeric character or `_` and has no whitespace after it. */
  predicate IsIdentifier(s: string) {
    && |s| > 0
    && (IsAlnum(s[0]) || s[0] == '_')
    && forall i :: 1 <= i < |s| ==> !IsSpace(s[i])
  }

  /** A maximal piece of `str.split()`: non-empty, no whitespace. */
  predicate IsWord(w: string) {
    |w| > 0 && forall i :: 0 <= i < |w| ==> !IsSpace(w[i])
  }

  /** `x` is what is left of `s` once some prefix is cut off. */
  predicate IsSuffix(x: string, s: string) {
    |x| <= |s| && x == s[|s| - |x|..]
  }

  lemma SuffixTransitive(x: string, y: string, z: string)
    requires IsSuffix(x, y) && IsSuffix(y, z)
    ensures IsSuffix(x, z)
  {
    assert y[|y| - |x|..] == z[|z| - |x|..];
  }

  /** `str.lstrip()` */
  function TrimLeft(s: string): (r: string)
    ensures |r| <= |s|
    ensures r != [] ==> !IsSpace(r[0])
    decreases |s|
  {
    if s != [] && IsSpace(s[0]) then TrimLeft(s[1..]) else s
  }

  /** What TrimLeft removes is a prefix of whitespace. */
  lemma {:induction false} TrimLeftCuts(s: string)
    ensures IsSuffix(TrimLeft(s), s)
    ensures forall i :: 0 <= i < |s| - |TrimLeft(s)| ==> IsSpace(s[i])
    decreases |s|
  {
    if s != [] && IsSpace(s[0]) {
      TrimLeftCuts(s[1..]);
    }
  }

  function TrimRight(s: string): (r: string)
    ensures |r| <= |s|
    ensures r != [] ==> !IsSpace(r[|r| - 1])
    decreases |s|
  {
    if s != [] && IsSpace(s[|s| - 1]) then TrimRight(s[..|s| - 1]) else s
  }

  /** What TrimRight removes is a suffix of whitespace. */
  lemma {:induction false} TrimRightCuts(s: string)
    ensures TrimRight(s) == s[..|TrimRight(s)|]
    ensures forall i :: |TrimRight(s)| <= i < |s| ==> IsSpace(s[i])
    decreases |s|
  {
    if s != [] && IsSpace(s[|s| - 1]) {
      TrimRightCuts(s[..|s| - 1]);
    }
  }

  /** `str.strip()` */
  function Strip(s: string): (r: string)
    ensures r != [] ==> !IsSpace(r[0]) && !IsSpace(r[|r| - 1])
    ensures exists i, j :: 0 <= i <= j <= |s| && r == s[i..j] &&
                           (forall k :: 0 <= k < i ==> IsSpace(s[k])) &&
                           (forall k :: j <= k < |s| ==> IsSpace(s[k]))
  {
    var l := TrimLeft(s);
    TrimLeftCuts(s);
    TrimRightCuts(l);
    var r := TrimRight(l);
    assert r == s[|s| - |l|..|s| - |l| + |r|];
    r
  }

  /** The length of the leading run of non-space characters. */
  function WordLength(s: string): (n: nat)
    ensures n <= |s|
    ensures s != [] && !IsSpace(s[0]) ==> n > 0
  {
    if s == [] || IsSpace(s[0]) then 0 else 1 + WordLength(s[1..])
  }

  lemma {:induction false} WordLengthRun(s: string)
    ensures forall i :: 0 <= i < WordLength(s) ==> !IsSpace(s[i])
    ensures WordLength(s) < |s| ==> IsSpace(s[WordLength(s)])
  {
    if s != [] && !IsSpace(s[0]) {
      WordLengthRun(s[1..]);
    }
  }

  /** `s.split()`: the maximal runs of non-space characters, in order. */
  function SplitAll(s: string): (r: seq<string>)
    ensures forall i :: 0 <= i < |r| ==> IsWord(r[i])
    decreases |s|
  {
    var t := TrimLeft(s);
    if t == [] then []
    else
      var n := WordLength(t);
      WordLengthRun(t);
      [t[..n]] + SplitAll(t[n..])
  }

  /**
    `s.split(None, maxsplit)` as CPython computes it: at most `maxsplit`
    words are cut off the front; whatever follows them, with its leading
    whitespace removed and its trailing whitespace kept, is the last piece.
   */
  function SplitMax(s: string, maxsplit: nat): (r: seq<string>)
    ensures |r| <= maxsplit + 1
    decreases |s|
  {
    var t := TrimLeft(s);
    if t == [] then []
    else if maxsplit == 0 then [t]
    else
      var n := WordLength(t);
      [t[..n]] + SplitMax(t[n..], maxsplit - 1)
  }

  /** The pieces SplitMax cuts off the front are whole words. */
  lemma {:induction false} SplitMaxWords(s: string, maxsplit: nat)
    ensures forall i :: 0 <= i < |SplitMax(s, maxsplit)| && i < maxsplit ==> IsWord(SplitMax(s, maxsplit)[i])
    decreases |s|
  {
    var t := TrimLeft(s);
    if t != [] && maxsplit > 0 {
      var n := WordLength(t);
      WordLengthRun(t);
      SplitMaxWords(t[n..], maxsplit - 1);
      var r := SplitMax(s, maxsplit);
      assert r == [t[..n]] + SplitMax(t[n..], maxsplit - 1);
      assert IsWord(r[0]);
      forall i | 1 <= i < |r| && i < maxsplit ensures IsWord(r[i]) {
        assert r[i] == SplitMax(t[n..], maxsplit - 1)[i - 1];
      }
    }
  }

  lemma DropIsSuffix(t: string, n: nat)
    requires n <= |t|
    ensures IsSuffix(t[n..], t)
  {
  }

  lemma TrimLeftSuffix(s: string)
    ensures IsSuffix(TrimLeft(s), s)
  {
    TrimLeftCuts(s);
  }

  /** When the count runs out, the last piece is the rest of `s` verbatim. */
  lemma {:induction false} SplitMaxRemainder(s: string, maxsplit: nat)
    requires |SplitMax(s, maxsplit)| == maxsplit + 1
    ensures IsSuffix(SplitMax(s, maxsplit)[maxsplit], s)
    ensures SplitMax(s, maxsplit)[maxsplit] != []
    ensures !IsSpace(SplitMax(s, maxsplit)[maxsplit][0])
    decreases |s|
  {
    var t := TrimLeft(s);
    TrimLeftSuffix(s);
    if maxsplit == 0 {
      assert SplitMax(s, maxsplit) == [t];
    } else {
      var n := WordLength(t);
      var r := SplitMax(t[n..], maxsplit - 1);
      assert SplitMax(s, maxsplit) == [t[..n]] + r;
      SplitMaxRemainder(t[n..], maxsplit - 1);
      var last := r[maxsplit - 1];
      assert SplitMax(s, maxsplit)[maxsplit] == last;
      DropIsSuffix(t, n);
      SuffixTransitive(last, t[n..], t);
      SuffixTransitive(last, t, s);
    }
  }

  /** When the count does not run out, SplitMax is the complete split. */
  lemma {:induction false} SplitMaxComplete(s: string, maxsplit: nat)
    requires |SplitMax(s, maxsplit)| <= maxsplit
    ensures SplitMax(s, maxsplit) == SplitAll(s)
    decreases |s|
  {
    var t := TrimLeft(s);
    if t != [] {
      var n := WordLength(t);
      SplitMaxComplete(t[n..], maxsplit - 1);
    }
  }

  // How the pieces of a split lie in the text they came from.

  predicate IsBlank(g: string) {
    forall k :: 0 <= k < |g| ==> IsSpace(g[k])
  }

  /** `gs[0] + ws[0] + gs[1] + ... + ws[|ws| - 1] + gs[|ws|]`: pieces laid out between gaps. */
  function Interleave(gs: seq<string>, ws: seq<string>): string
    requires |gs| == |ws| + 1
    decreases |ws|
  {
    if ws == [] then gs[0] else gs[0] + ws[0] + Interleave(gs[1..], ws[1..])
  }

  /** Gaps around `n` pieces: whitespace only, and nonempty between two pieces. */
  predicate Gaps(gs: seq<string>, n: nat) {
    && |gs| == n + 1
    && (forall i :: 0 <= i < |gs| ==> IsBlank(gs[i]))
    && (forall i :: 0 < i < n ==> gs[i] != [])
  }

  /** After a word, whitespace starts whatever is left. */
  lemma WordGap(t: string)
    ensures var tail := t[WordLength(t)..]; tail == [] || |TrimLeft(tail)| < |tail|
  {
    WordLengthRun(t);
    var tail := t[WordLength(t)..];
    if tail != [] {
      assert tail[0] == t[WordLength(t)];
      assert TrimLeft(tail) == TrimLeft(tail[1..]);
    }
  }

  lemma {:induction false} TrimLeftBlank(g: string, u: string)
    requires IsBlank(g)
    ensures TrimLeft(g + u) == TrimLeft(u)
    decreases |g|
  {
    if g != [] {
      assert (g + u)[0] == g[0];
      assert (g + u)[1..] == g[1..] + u;
      assert TrimLeft(g + u) == TrimLeft(g[1..] + u);
      assert IsBlank(g[1..]) by {
        forall k | 0 <= k < |g[1..]| ensures IsSpace(g[1..][k]) {
          assert g[1..][k] == g[k + 1];
        }
      }
      TrimLeftBlank(g[1..], u);
    } else {
      assert g + u == u;
    }
  }

  /** One gap and one piece in front of a layout. */
  lemma GapsCons(g: string, w: string, gs: seq<string>, ws: seq<string>)
    requires IsBlank(g) && Gaps(gs, |ws|) && (ws != [] ==> gs[0] != [])
    ensures Gaps([g] + gs, |[w] + ws|)
    ensures Interleave([g] + gs, [w] + ws) == g + w + Interleave(gs, ws)
  {
    var gs1, ws1 := [g] + gs, [w] + ws;
    assert gs1[1..] == gs && ws1[1..] == ws;
    forall i | 0 < i < |ws1| ensures gs1[i] != [] {
      assert gs1[i] == gs[i - 1];
    }
  }

  /**
    SplitAll cuts `s` into its words and nothing else: `s` is the words laid
    out between whitespace gaps, each gap between two words nonempty.
   */
  lemma {:induction false} SplitAllLayout(s: string) returns (gs: seq<string>)
    ensures Gaps(gs, |SplitAll(s)|) && s == Interleave(gs, SplitAll(s))
    ensures |gs[0]| == |s| - |TrimLeft(s)|
    decreases |s|
  {
    var t := TrimLeft(s);
    var g0 := LeadingGap(s);
    if t == [] {
      gs := [s];
    } else {
      var n := WordLength(t);
      var tail := t[n..];
      var gs' := SplitAllLayout(tail);
      WordGap(t);
      assert SplitAll(s) == [t[..n]] + SplitAll(tail);
      gs := LayoutCons(s, t, g0, n, gs', SplitAll(tail));
    }
  }

  /** The whitespace TrimLeft removes from the front of `s`. */
  lemma LeadingGap(s: string) returns (g: string)
    ensures IsBlank(g) && s == g + TrimLeft(s)
  {
    var t := TrimLeft(s);
    TrimLeftCuts(s);
    g := s[..|s| - |t|];
    assert s == g + t;
  }

  /** Conversely, words laid out between such gaps are what SplitAll gives back. */
  lemma {:induction false} SplitAllUnique(s: string, gs: seq<string>, ws: seq<string>)
    requires forall i :: 0 <= i < |ws| ==> IsWord(ws[i])
    requires Gaps(gs, |ws|) && s == Interleave(gs, ws)
    ensures SplitAll(s) == ws
    decreases |ws|
  {
    if ws == [] {
      TrimLeftBlank(gs[0], []);
      assert s == gs[0] + [];
    } else {
      var rest := Interleave(gs[1..], ws[1..]);
      var t := ws[0] + rest;
      assert s == gs[0] + t;
      TrimLeftBlank(gs[0], t);
      TrimLeftNoSpace(t);
      assert rest == gs[1] + (if |ws| == 1 then [] else ws[1] + Interleave(gs[2..], ws[2..]));
      if |ws| > 1 {
        assert gs[1] != [];
      }
      WordLengthOfWord(ws[0], rest);
      assert t[..|ws[0]|] == ws[0] && t[|ws[0]|..] == rest;
      assert Gaps(gs[1..], |ws[1..]|) by {
        forall i | 0 < i < |ws[1..]| ensures gs[1..][i] != [] {
          assert gs[1..][i] == gs[i + 1];
        }
      }
      SplitAllUnique(rest, gs[1..], ws[1..]);
      assert ws == [ws[0]] + ws[1..];
    }
  }

  /**
    The same layout for SplitMax: when the count runs out, the last piece
    takes the rest of `s` and no gap follows it.
   */
  lemma {:induction false} SplitMaxLayout(s: string, maxsplit: nat) returns (gs: seq<string>)
    ensures Gaps(gs, |SplitMax(s, maxsplit)|) && s == Interleave(gs, SplitMax(s, maxsplit))
    ensures |gs[0]| == |s| - |TrimLeft(s)|
    ensures |SplitMax(s, maxsplit)| == maxsplit + 1 ==> gs[maxsplit + 1] == []
    decreases |s|
  {
    var t := TrimLeft(s);
    var g0 := LeadingGap(s);
    if t == [] {
      gs := [s];
    } else if maxsplit == 0 {
      gs := [g0, []];
      assert SplitMax(s, maxsplit) == [t];
      assert Interleave(gs, [t]) == g0 + t + [];
    } else {
      var n := WordLength(t);
      var tail := t[n..];
      var gs' := SplitMaxLayout(tail, maxsplit - 1);
      WordGap(t);
      assert SplitMax(s, maxsplit) == [t[..n]] + SplitMax(tail, maxsplit - 1);
      gs := LayoutCons(s, t, g0, n, gs', SplitMax(tail, maxsplit - 1));
      if |gs| > maxsplit + 1 {
        assert gs[maxsplit + 1] == gs'[maxsplit];
      }
    }
  }

  /** A word and the gap before it, put in front of a layout of the rest. */
  lemma LayoutCons(s: string, t: string, g0: string, n: nat, gs': seq<string>, ws': seq<string>)
    returns (gs: seq<string>)
    requires n <= |t| && IsBlank(g0) && s == g0 + t
    requires Gaps(gs', |ws'|) && t[n..] == Interleave(gs', ws')
    requires ws' != [] ==> gs'[0] != []
    ensures gs == [g0] + gs'
    ensures Gaps(gs, |[t[..n]] + ws'|) && s == Interleave(gs, [t[..n]] + ws')
  {
    GapsCons(g0, t[..n], gs', ws');
    assert t == t[..n] + t[n..];
    gs := [g0] + gs';
  }

  /** The pieces of a layout of one, two or three, written out. */
  lemma Interleave1(gs: seq<string>, ws: seq<string>)
    requires |gs| == 2 && |ws| == 1
    ensures Interleave(gs, ws) == gs[0] + ws[0] + gs[1]
  {
    assert gs[1..][0] == gs[1];
  }

  lemma Interleave2(gs: seq<string>, ws: seq<string>)
    requires |gs| == 3 && |ws| == 2
    ensures Interleave(gs, ws) == gs[0] + ws[0] + gs[1] + ws[1] + gs[2]
  {
    Interleave1(gs[1..], ws[1..]);
    assert gs[1..][1] == gs[2];
  }

  lemma Interleave3(gs: seq<string>, ws: seq<string>)
    requires |gs| == 4 && |ws| == 3
    ensures Interleave(gs, ws) == gs[0] + ws[0] + gs[1] + ws[1] + gs[2] + ws[2] + gs[3]
  {
    Interleave2(gs[1..], ws[1..]);
    assert gs[1..][2] == gs[3];
  }

  /** Text that starts with a non-space is its stripped form followed by whitespace. */
  lemma StripFront(p: string) returns (w: string)
    requires p == [] || !IsSpace(p[0])
    ensures IsBlank(w) && p == Strip(p) + w
  {
    TrimRightCuts(p);
    w := p[|TrimRight(p)|..];
    assert p == TrimRight(p) + w;
  }

  /**
    `whitespace_split(s, nrsplits)`: a negative count splits completely;
    otherwise the pieces of `s.split(None, nrsplits)` are padded with empty
    strings to exactly `nrsplits + 1` entries.
   */
  function WhitespaceSplit(s: string, nrsplits: int): (r: seq<string>)
    ensures nrsplits < 0 ==> r == SplitAll(s)
    ensures nrsplits >= 0 ==> |r| == nrsplits + 1
    ensures nrsplits >= 0 ==>
              var p := SplitMax(s, nrsplits);
              && (forall i :: 0 <= i < |p| ==> r[i] == p[i])
              && (forall i :: |p| <= i < |r| ==> r[i] == "")
  {
    if nrsplits < 0 then SplitAll(s)
    else
      var p := SplitMax(s, nrsplits);
      if |p| <= nrsplits then p + seq(nrsplits + 1 - |p|, _ => "") else p
  }

  /** `" ".join(ws)`, the way a writer puts identifiers back on one line. */
  function Join(ws: seq<string>): string {
    if ws == [] then ""
    else if |ws| == 1 then ws[0]
    else ws[0] + " " + Join(ws[1..])
  }

  lemma TrimLeftNoSpace(s: string)
    requires s != [] && !IsSpace(s[0])
    ensures TrimLeft(s) == s
  {
  }

  lemma {:induction false} WordLengthOfWord(w: string, rest: string)
    requires IsWord(w)
    requires rest == [] || IsSpace(rest[0])
    ensures WordLength(w + rest) == |w|
    decreases |w|
  {
    if |w| > 1 {
      assert (w + rest)[1..] == w[1..] + rest;
      WordLengthOfWord(w[1..], rest);
    } else {
      assert (w + rest)[1..] == rest;
    }
  }

  /** Splitting what a writer joined with single spaces gives the words back. */
  lemma {:induction false} SplitJoin(ws: seq<string>)
    requires forall i :: 0 <= i < |ws| ==> IsWord(ws[i])
    ensures SplitAll(Join(ws)) == ws
  {
    if ws == [] {
    } else if |ws| == 1 {
      var w := ws[0];
      TrimLeftNoSpace(w);
      WordLengthOfWord(w, "");
      assert w + "" == w;
      assert w[|w|..] == [];
      assert w[..|w|] == w;
    } else {
      var w, j := ws[0], Join(ws[1..]);
      var s := w + " " + j;
      assert s == w + (" " + j);
      TrimLeftNoSpace(s);
      WordLengthOfWord(w, " " + j);
      assert s[..|w|] == w;
      assert s[|w|..] == " " + j;
      assert (" " + j)[1..] == j;
      assert TrimLeft(" " + j) == TrimLeft(j);
      SplitJoin(ws[1..]);
      JoinStartsWithWord(ws[1..]);
      TrimLeftNoSpace(j);
      assert SplitAll(" " + j) == SplitAll(j);
    }
  }

  lemma {:induction false} JoinStartsWithWord(ws: seq<string>)
    requires |ws| > 0 && IsWord(ws[0])
    ensures |Join(ws)| > 0 && Join(ws)[0] == ws[0][0]
  {
    if |ws| > 1 {
      assert Join(ws) == ws[0] + (" " + Join(ws[1..]));
    }
  }

  /** A decimal numeral: one or more ASCII digits. */
  predicate IsNumeral(s: string) {
    |s| > 0 && forall i :: 0 <= i < |s| ==> IsDigit(s[i])
  }

  function DigitChar(d: nat): (c: char)
    requires d < 10
    ensures IsDigit(c)
  {
    ('0' as int + d) as char
  }

  function DigitValue(c: char): (d: nat)
    requires IsDigit(c)
    ensures d < 10
  {
    c as int - '0' as int
  }

  /** The value of a string of digits, read left to right (Python's `int`). */
  function NatValue(s: string): nat
    requires forall i :: 0 <= i < |s| ==> IsDigit(s[i])
  {
    if s == [] then 0 else NatValue(s[..|s| - 1]) * 10 + DigitValue(s[|s| - 1])
  }

  /** The shortest decimal numeral of `n`, as `str(n)` writes it. */
  function NatToString(n: nat): (r: string)
    ensures IsNumeral(r)
  {
    if n < 10 then [DigitChar(n)] else NatToString(n / 10) + [DigitChar(n % 10)]
  }

  lemma {:induction false} NatToStringRoundTrip(n: nat)
    ensures NatValue(NatToString(n)) == n
  {
    if n >= 10 {
      var s := NatToString(n);
      assert s[..|s| - 1] == NatToString(n / 10);
      NatToStringRoundTrip(n / 10);
    }
  }
}
