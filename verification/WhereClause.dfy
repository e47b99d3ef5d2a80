/**
  Compiling collection rules to the WHERE text. The text is a token list; the reference meaning of a
  text is a parser with SQL precedence (NOT over AND over OR) that evaluates as it goes.
 */
module WhereClause {
  import opened Options

  /** Atoms are the opaque condition texts of get_query_string; TrueLit is "1=1". */
  datatype Tok = Atom(p: nat) | TrueLit | And | Or | Not | LPar | RPar

  datatype Mode = ModeAnd | ModeOr | ModeAndNot

  /** A collect or filtering rule; `text` is None when its string is empty. */
  datatype Rule = Rule(text: Option<nat>, mode: Mode, off: bool)

  // ---------------------------------------------------------------- the compiler

  function Conj(m: Mode): seq<Tok> {
    match m
    case ModeAnd => [And]
    case ModeOr => [Or]
    case ModeAndNot => [And, Not]
  }

  /** Does the rule produce text at all? */
  predicate Active(r: Rule) { !r.off && (r.text.Some? || r.mode == ModeOr) }

  function Condition(r: Rule): Tok { if r.text.Some? then Atom(r.text.value) else TrueLit }

  /** _get_query_part, given whether an earlier rule has produced text. */
  function Part(r: Rule, first: bool): seq<Tok> {
    if r.off then []
    else if r.text.None? then
      (if r.mode == ModeOr then (if first then [TrueLit] else [Or, TrueLit]) else [])
    else if first && r.mode == ModeAndNot then [TrueLit, And, Not, Atom(r.text.value)]
    else if first then [Atom(r.text.value)]
    else Conj(r.mode) + [Atom(r.text.value)]
  }

  /** The concatenated parts of a rule list. */
  function Parts(rs: seq<Rule>, first: bool): seq<Tok> {
    if rs == [] then [] else Part(rs[0], first) + Parts(rs[1..], first && !Active(rs[0]))
  }

  // ---------------------------------------------------------------- SQL

  datatype Parsed = Fail | Ok(v: bool, rest: seq<Tok>)

  type Env = nat -> bool

  function ParseOr(env: Env, ts: seq<Tok>): (r: Parsed)
    ensures r.Ok? ==> |r.rest| < |ts|
    decreases |ts|, 5
  {
    var m := ParseAnd(env, ts);
    if m.Fail? then Fail else OrLoop(env, m.v, m.rest)
  }

  function OrLoop(env: Env, left: bool, ts: seq<Tok>): (r: Parsed)
    ensures r.Ok? ==> |r.rest| <= |ts|
    decreases |ts|, 4
  {
    if ts == [] || ts[0] != Or then Ok(left, ts) else
    var m := ParseAnd(env, ts[1..]);
    if m.Fail? then Fail else OrLoop(env, left || m.v, m.rest)
  }

  function ParseAnd(env: Env, ts: seq<Tok>): (r: Parsed)
    ensures r.Ok? ==> |r.rest| < |ts|
    decreases |ts|, 3
  {
    var m := ParseNot(env, ts);
    if m.Fail? then Fail else AndLoop(env, m.v, m.rest)
  }

  function AndLoop(env: Env, left: bool, ts: seq<Tok>): (r: Parsed)
    ensures r.Ok? ==> |r.rest| <= |ts|
    decreases |ts|, 2
  {
    if ts == [] || ts[0] != And then Ok(left, ts) else
    var m := ParseNot(env, ts[1..]);
    if m.Fail? then Fail else AndLoop(env, left && m.v, m.rest)
  }

  function ParseNot(env: Env, ts: seq<Tok>): (r: Parsed)
    ensures r.Ok? ==> |r.rest| < |ts|
    decreases |ts|, 1
  {
    if ts == [] then Fail
    else match ts[0]
      case Not => (var m := ParseNot(env, ts[1..]); if m.Fail? then Fail else Ok(!m.v, m.rest))
      case Atom(p) => Ok(env(p), ts[1..])
      case TrueLit => Ok(true, ts[1..])
      case LPar =>
        (var m := ParseOr(env, ts[1..]);
         if m.Fail? || m.rest == [] || m.rest[0] != RPar then Fail else Ok(m.v, m.rest[1..]))
      case _ => Fail
  }

  // ---------------------------------------------------------------- what the rules mean

  function Value(env: Env, r: Rule): bool { if r.text.Some? then env(r.text.value) else true }

  /** A rule's own term: negated where its mode is AND NOT. */
  predicate Term(env: Env, r: Rule) { if r.mode == ModeAndNot then !Value(env, r) else Value(env, r) }

  function ActiveRules(rs: seq<Rule>): seq<Rule> {
    if rs == [] then [] else (if Active(rs[0]) then [rs[0]] else []) + ActiveRules(rs[1..])
  }

  /** Rules i .. j - 1 form a maximal run: it starts at the front or at an OR and ends before the next OR. */
  ghost predicate Run(rs: seq<Rule>, i: int, j: int) {
    && 0 <= i < j <= |rs|
    && (i == 0 || rs[i].mode == ModeOr)
    && (forall k :: i < k < j ==> rs[k].mode != ModeOr)
    && (j == |rs| || rs[j].mode == ModeOr)
  }

  ghost predicate AllTerms(env: Env, rs: seq<Rule>, i: int, j: int) {
    forall k :: i <= k < j && 0 <= k < |rs| ==> Term(env, rs[k])
  }

  /** OR of the maximal AND-runs; a list without active rules does not restrict anything. */
  ghost predicate Meaning(env: Env, rules: seq<Rule>) {
    var rs := ActiveRules(rules);
    rs == [] || exists i, j :: Run(rs, i, j) && AllTerms(env, rs, i, j)
  }

  // ---------------------------------------------------------------- the compiled text of active rules

  /** The text of rules that follow an active one. */
  function Tail(rs: seq<Rule>): seq<Tok> {
    if rs == [] then [] else Conj(rs[0].mode) + [Condition(rs[0])] + Tail(rs[1..])
  }

  lemma PartsAfter(rs: seq<Rule>)
    ensures Parts(rs, false) == Tail(ActiveRules(rs))
  {
    if rs != [] {
      PartsAfter(rs[1..]);
      if Active(rs[0]) {
        assert ActiveRules(rs)[1..] == ActiveRules(rs[1..]);
      } else {
        assert ActiveRules(rs) == ActiveRules(rs[1..]);
      }
    }
  }

  function Head(r: Rule): seq<Tok> {
    if r.mode == ModeAndNot then [TrueLit, And, Not, Condition(r)] else [Condition(r)]
  }

  lemma PartsFromStart(rs: seq<Rule>)
    ensures Parts(rs, true) == var act := ActiveRules(rs); if act == [] then [] else Head(act[0]) + Tail(act[1..])
  {
    if rs != [] {
      if Active(rs[0]) {
        PartsAfter(rs[1..]);
        assert ActiveRules(rs)[1..] == ActiveRules(rs[1..]);
      } else {
        PartsFromStart(rs[1..]);
        assert ActiveRules(rs) == ActiveRules(rs[1..]);
      }
    }
  }

  /** Left-to-right evaluation: acc is the OR of the finished runs, run the current one. */
  function Fold(env: Env, acc: bool, run: bool, rs: seq<Rule>): bool
    decreases |rs|
  {
    if rs == [] then acc || run
    else if rs[0].mode == ModeOr then Fold(env, acc || run, Term(env, rs[0]), rs[1..])
    else Fold(env, acc, run && Term(env, rs[0]), rs[1..])
  }

  /** Nothing that could continue a condition. */
  predicate Ends(rest: seq<Tok>) { rest == [] || rest[0] == RPar }

  function Finish(env: Env, acc: bool, run: bool, ts: seq<Tok>): Parsed {
    var m := AndLoop(env, run, ts);
    if m.Fail? then Fail else OrLoop(env, acc || m.v, m.rest)
  }

  /** A single condition. */
  lemma ConditionParses(env: Env, r: Rule, more: seq<Tok>)
    ensures ParseNot(env, [Condition(r)] + more) == Ok(Value(env, r), more)
    ensures ParseNot(env, [Not] + ([Condition(r)] + more)) == Ok(!Value(env, r), more)
  {
    assert ([Condition(r)] + more)[1..] == more;
    assert ([Not] + ([Condition(r)] + more))[1..] == [Condition(r)] + more;
  }

  /** AND and AND NOT extend the current run. */
  lemma AndStep(env: Env, run: bool, r: Rule, more: seq<Tok>)
    requires r.mode != ModeOr
    ensures AndLoop(env, run, Conj(r.mode) + ([Condition(r)] + more)) == AndLoop(env, run && Term(env, r), more)
  {
    var ts := Conj(r.mode) + ([Condition(r)] + more);
    ConditionParses(env, r, more);
    if r.mode == ModeAnd {
      assert ts[1..] == [Condition(r)] + more;
    } else {
      assert ts[1..] == [Not] + ([Condition(r)] + more);
    }
  }

  /** OR closes the current run and opens another. */
  lemma OrStep(env: Env, acc: bool, run: bool, r: Rule, more: seq<Tok>)
    requires r.mode == ModeOr
    ensures Finish(env, acc, run, Conj(r.mode) + ([Condition(r)] + more)) == Finish(env, acc || run, Term(env, r), more)
  {
    var ts := Conj(r.mode) + ([Condition(r)] + more);
    ConditionParses(env, r, more);
    assert ts[1..] == [Condition(r)] + more;
    assert AndLoop(env, run, ts) == Ok(run, ts);
    assert ParseAnd(env, ts[1..]) == AndLoop(env, Term(env, r), more);
  }

  lemma TailFirst(rs: seq<Rule>, rest: seq<Tok>)
    requires rs != []
    ensures Tail(rs) + rest == Conj(rs[0].mode) + ([Condition(rs[0])] + (Tail(rs[1..]) + rest))
  {
    var a, b, c := Conj(rs[0].mode), [Condition(rs[0])], Tail(rs[1..]);
    assert (a + b + c) + rest == a + (b + (c + rest));
  }

  /** One rule of the tail. */
  lemma TailStep(env: Env, acc: bool, run: bool, rs: seq<Rule>, rest: seq<Tok>)
    requires rs != []
    ensures var more := Tail(rs[1..]) + rest;
            Finish(env, acc, run, Tail(rs) + rest)
            == if rs[0].mode == ModeOr then Finish(env, acc || run, Term(env, rs[0]), more)
               else Finish(env, acc, run && Term(env, rs[0]), more)
  {
    var r, more := rs[0], Tail(rs[1..]) + rest;
    TailFirst(rs, rest);
    if r.mode == ModeOr { OrStep(env, acc, run, r, more); } else { AndStep(env, run, r, more); }
  }

  lemma {:induction false} TailParses(env: Env, acc: bool, run: bool, rs: seq<Rule>, rest: seq<Tok>)
    requires Ends(rest)
    ensures Finish(env, acc, run, Tail(rs) + rest) == Ok(Fold(env, acc, run, rs), rest)
    decreases |rs|
  {
    if rs == [] {
      assert Tail(rs) + rest == rest;
    } else {
      TailStep(env, acc, run, rs, rest);
      if rs[0].mode == ModeOr {
        TailParses(env, acc || run, Term(env, rs[0]), rs[1..], rest);
      } else {
        TailParses(env, acc, run && Term(env, rs[0]), rs[1..], rest);
      }
    }
  }

  /** The first rule opens the first run. */
  lemma HeadParses(env: Env, r: Rule, more: seq<Tok>)
    ensures ParseAnd(env, Head(r) + more) == AndLoop(env, Term(env, r), more)
  {
    ConditionParses(env, r, more);
    if r.mode == ModeAndNot {
      var ts := Head(r) + more;
      assert ts[1..] == Conj(ModeAndNot) + ([Condition(r)] + more);
      AndStep(env, true, r, more);
    } else {
      assert Head(r) + more == [Condition(r)] + more;
    }
  }

  lemma HeadFinishes(env: Env, r: Rule, more: seq<Tok>)
    ensures ParseOr(env, Head(r) + more) == Finish(env, false, Term(env, r), more)
  {
    HeadParses(env, r, more);
  }

  lemma ListText(rs: seq<Rule>, rest: seq<Tok>)
    requires ActiveRules(rs) != []
    ensures var act := ActiveRules(rs); Parts(rs, true) + rest == Head(act[0]) + (Tail(act[1..]) + rest)
  {
    var act := ActiveRules(rs);
    var h, u := Head(act[0]), Tail(act[1..]);
    PartsFromStart(rs);
    assert (h + u) + rest == h + (u + rest);
  }

  lemma ListParses(env: Env, rs: seq<Rule>, rest: seq<Tok>)
    requires Ends(rest) && ActiveRules(rs) != []
    ensures var act := ActiveRules(rs);
            ParseOr(env, Parts(rs, true) + rest) == Ok(Fold(env, false, Term(env, act[0]), act[1..]), rest)
  {
    var act := ActiveRules(rs);
    ListText(rs, rest);
    HeadFinishes(env, act[0], Tail(act[1..]) + rest);
    TailParses(env, false, Term(env, act[0]), act[1..], rest);
  }

  // ---------------------------------------------------------------- folding is the OR of runs

  /** The rules before the first OR. */
  ghost predicate FirstRun(rs: seq<Rule>, j: int) {
    0 <= j <= |rs| && (forall k :: 0 <= k < j ==> rs[k].mode != ModeOr) && (j == |rs| || rs[j].mode == ModeOr)
  }

  /** A run that an OR opens. */
  ghost predicate LaterRun(rs: seq<Rule>, i: int, j: int) {
    && 0 <= i < j <= |rs| && rs[i].mode == ModeOr
    && (forall k :: i < k < j ==> rs[k].mode != ModeOr)
    && (j == |rs| || rs[j].mode == ModeOr)
  }

  ghost predicate FirstRunTrue(env: Env, rs: seq<Rule>) { exists j :: FirstRun(rs, j) && AllTerms(env, rs, 0, j) }

  ghost predicate SomeLaterTrue(env: Env, rs: seq<Rule>) { exists i, j :: LaterRun(rs, i, j) && AllTerms(env, rs, i, j) }

  /** Rules of a tail seen from the whole list. */
  lemma TermsShift(env: Env, rs: seq<Rule>, i: int, j: int)
    requires rs != [] && 0 <= i <= j <= |rs| - 1
    ensures AllTerms(env, rs[1..], i, j) <==> AllTerms(env, rs, i + 1, j + 1)
  {
    var r := rs[1..];
    assert forall k :: 0 <= k < |r| ==> r[k] == rs[k + 1];
    if AllTerms(env, rs, i + 1, j + 1) {
      forall k | i <= k < j && 0 <= k < |r| ensures Term(env, r[k]) { assert Term(env, rs[k + 1]); }
    }
    if AllTerms(env, r, i, j) {
      forall k | i + 1 <= k < j + 1 && 0 <= k < |rs| ensures Term(env, rs[k]) { assert rs[k] == r[k - 1]; }
    }
  }

  lemma FirstRunShift(env: Env, rs: seq<Rule>)
    requires rs != [] && rs[0].mode != ModeOr
    ensures FirstRunTrue(env, rs) <==> Term(env, rs[0]) && FirstRunTrue(env, rs[1..])
    ensures SomeLaterTrue(env, rs) <==> SomeLaterTrue(env, rs[1..])
  {
    var r := rs[1..];
    assert forall k :: 0 <= k < |r| ==> r[k] == rs[k + 1];
    if Term(env, rs[0]) && FirstRunTrue(env, r) {
      var j :| FirstRun(r, j) && AllTerms(env, r, 0, j);
      TermsShift(env, rs, 0, j);
      assert FirstRun(rs, j + 1) && AllTerms(env, rs, 0, j + 1);
    }
    if FirstRunTrue(env, rs) {
      var j :| FirstRun(rs, j) && AllTerms(env, rs, 0, j);
      assert Term(env, rs[0]);
      TermsShift(env, rs, 0, j - 1);
      assert FirstRun(r, j - 1) by { forall k | 0 <= k < j - 1 ensures r[k].mode != ModeOr { assert rs[k + 1].mode != ModeOr; } }
    }
    LaterShift(env, rs);
  }

  lemma LaterShift(env: Env, rs: seq<Rule>)
    requires rs != []
    ensures SomeLaterTrue(env, rs[1..]) ==> SomeLaterTrue(env, rs)
    ensures SomeLaterTrue(env, rs) ==> SomeLaterTrue(env, rs[1..]) || (rs[0].mode == ModeOr && Term(env, rs[0]) && FirstRunTrue(env, rs[1..]))
    ensures rs[0].mode == ModeOr && Term(env, rs[0]) && FirstRunTrue(env, rs[1..]) ==> SomeLaterTrue(env, rs)
  {
    var r := rs[1..];
    assert forall k :: 0 <= k < |r| ==> r[k] == rs[k + 1];
    if SomeLaterTrue(env, r) {
      var i, j :| LaterRun(r, i, j) && AllTerms(env, r, i, j);
      TermsShift(env, rs, i, j);
      assert LaterRun(rs, i + 1, j + 1) by { forall k | i + 1 < k < j + 1 ensures rs[k].mode != ModeOr { assert r[k - 1] == rs[k]; } }
    }
    if SomeLaterTrue(env, rs) {
      var i, j :| LaterRun(rs, i, j) && AllTerms(env, rs, i, j);
      if i > 0 {
        TermsShift(env, rs, i - 1, j - 1);
        assert LaterRun(r, i - 1, j - 1) by { forall k | i - 1 < k < j - 1 ensures r[k].mode != ModeOr { assert r[k] == rs[k + 1]; } }
      } else {
        assert Term(env, rs[0]);
        assert AllTerms(env, rs, 1, j);
        TermsShift(env, rs, 0, j - 1);
        assert FirstRun(r, j - 1) by { forall k | 0 <= k < j - 1 ensures r[k].mode != ModeOr { assert r[k] == rs[k + 1]; } }
      }
    }
    if rs[0].mode == ModeOr && Term(env, rs[0]) && FirstRunTrue(env, r) {
      var j :| FirstRun(r, j) && AllTerms(env, r, 0, j);
      TermsShift(env, rs, 0, j);
      assert LaterRun(rs, 0, j + 1) by { forall k | 0 < k < j + 1 ensures rs[k].mode != ModeOr { assert r[k - 1] == rs[k]; } }
      assert AllTerms(env, rs, 0, j + 1);
    }
  }

  lemma EmptyFirstRun(env: Env, rs: seq<Rule>)
    requires rs == [] || rs[0].mode == ModeOr
    ensures FirstRunTrue(env, rs)
  {
    assert FirstRun(rs, 0) && AllTerms(env, rs, 0, 0);
  }

  lemma {:induction false} FoldIsRuns(env: Env, acc: bool, run: bool, rs: seq<Rule>)
    ensures Fold(env, acc, run, rs) <==> acc || (run && FirstRunTrue(env, rs)) || SomeLaterTrue(env, rs)
    decreases |rs|
  {
    if rs == [] {
      EmptyFirstRun(env, rs);
    } else if rs[0].mode == ModeOr {
      FoldIsRuns(env, acc || run, Term(env, rs[0]), rs[1..]);
      LaterShift(env, rs);
      EmptyFirstRun(env, rs);
    } else {
      FoldIsRuns(env, acc, run && Term(env, rs[0]), rs[1..]);
      FirstRunShift(env, rs);
    }
  }

  /** A true run of the whole list is the first run or a later one of the tail. */
  lemma RunInTail(env: Env, rs: seq<Rule>, i: int, j: int)
    requires rs != [] && Run(rs, i, j) && AllTerms(env, rs, i, j)
    ensures (Term(env, rs[0]) && FirstRunTrue(env, rs[1..])) || SomeLaterTrue(env, rs[1..])
  {
    var r := rs[1..];
    assert forall k :: 0 <= k < |r| ==> r[k] == rs[k + 1];
    if i > 0 {
      TermsShift(env, rs, i - 1, j - 1);
      assert LaterRun(r, i - 1, j - 1) by { forall k | i - 1 < k < j - 1 ensures r[k].mode != ModeOr { assert r[k] == rs[k + 1]; } }
    } else {
      assert Term(env, rs[0]) && AllTerms(env, rs, 1, j);
      TermsShift(env, rs, 0, j - 1);
      assert FirstRun(r, j - 1) by { forall k | 0 <= k < j - 1 ensures r[k].mode != ModeOr { assert r[k] == rs[k + 1]; } }
    }
  }

  lemma FirstRunIsRun(env: Env, rs: seq<Rule>) returns (j: int)
    requires rs != [] && Term(env, rs[0]) && FirstRunTrue(env, rs[1..])
    ensures Run(rs, 0, j) && AllTerms(env, rs, 0, j)
  {
    var r := rs[1..];
    assert forall k :: 0 <= k < |r| ==> r[k] == rs[k + 1];
    var t :| FirstRun(r, t) && AllTerms(env, r, 0, t);
    TermsShift(env, rs, 0, t);
    j := t + 1;
    forall k | 0 < k < j ensures rs[k].mode != ModeOr { assert r[k - 1] == rs[k]; }
  }

  lemma LaterRunIsRun(env: Env, rs: seq<Rule>) returns (i: int, j: int)
    requires rs != [] && SomeLaterTrue(env, rs[1..])
    ensures Run(rs, i, j) && AllTerms(env, rs, i, j)
  {
    var r := rs[1..];
    assert forall k :: 0 <= k < |r| ==> r[k] == rs[k + 1];
    var s, t :| LaterRun(r, s, t) && AllTerms(env, r, s, t);
    TermsShift(env, rs, s, t);
    i, j := s + 1, t + 1;
    forall k | i < k < j ensures rs[k].mode != ModeOr { assert r[k - 1] == rs[k]; }
  }

  lemma RunsFromTail(env: Env, rs: seq<Rule>)
    requires rs != []
    ensures (exists i, j :: Run(rs, i, j) && AllTerms(env, rs, i, j))
            <==> (Term(env, rs[0]) && FirstRunTrue(env, rs[1..])) || SomeLaterTrue(env, rs[1..])
  {
    if exists i, j :: Run(rs, i, j) && AllTerms(env, rs, i, j) {
      var i, j :| Run(rs, i, j) && AllTerms(env, rs, i, j);
      RunInTail(env, rs, i, j);
    }
    if Term(env, rs[0]) && FirstRunTrue(env, rs[1..]) {
      var j := FirstRunIsRun(env, rs);
    }
    if SomeLaterTrue(env, rs[1..]) {
      var i, j := LaterRunIsRun(env, rs);
    }
  }

  /** The text of a rule list parses to its meaning. */
  lemma ListMeans(env: Env, rs: seq<Rule>, rest: seq<Tok>)
    requires Ends(rest) && ActiveRules(rs) != []
    ensures ParseOr(env, Parts(rs, true) + rest) == Ok(Meaning(env, rs), rest)
  {
    var act := ActiveRules(rs);
    ListParses(env, rs, rest);
    FoldIsRuns(env, false, Term(env, act[0]), act[1..]);
    RunsFromTail(env, act);
  }

  lemma EmptyText(rs: seq<Rule>)
    ensures Parts(rs, true) == [] <==> ActiveRules(rs) == []
  {
    PartsFromStart(rs);
  }

  /** A parenthesised rule list followed by anything. */
  lemma GroupMeans(env: Env, rs: seq<Rule>, more: seq<Tok>)
    requires ActiveRules(rs) != []
    ensures ParseNot(env, [LPar] + Parts(rs, true) + [RPar] + more) == Ok(Meaning(env, rs), more)
  {
    var p, rest := Parts(rs, true), [RPar] + more;
    assert ([LPar] + p + [RPar] + more)[1..] == p + rest;
    ListMeans(env, rs, rest);
    assert rest[1..] == more;
  }

  lemma AndStops(env: Env, v: bool)
    ensures AndLoop(env, v, [RPar]) == Ok(v, [RPar]) && OrLoop(env, v, [RPar]) == Ok(v, [RPar])
  {
  }

  /** One group alone between the outer parentheses. */
  lemma OneGroup(env: Env, rs: seq<Rule>)
    requires ActiveRules(rs) != []
    ensures ParseAnd(env, [LPar] + Parts(rs, true) + [RPar] + [RPar]) == Ok(Meaning(env, rs), [RPar])
  {
    GroupMeans(env, rs, [RPar]);
    AndStops(env, Meaning(env, rs));
  }

  /** A group behind AND. */
  lemma SecondGroup(env: Env, left: bool, rs: seq<Rule>)
    requires ActiveRules(rs) != []
    ensures AndLoop(env, left, [And] + ([LPar] + Parts(rs, true) + [RPar] + [RPar])) == Ok(left && Meaning(env, rs), [RPar])
  {
    var g := [LPar] + Parts(rs, true) + [RPar] + [RPar];
    GroupMeans(env, rs, [RPar]);
    assert ([And] + g)[1..] == g;
    AndStops(env, left && Meaning(env, rs));
  }

  lemma TwoGroups(env: Env, collect: seq<Rule>, filters: seq<Rule>)
    requires ActiveRules(collect) != [] && ActiveRules(filters) != []
    ensures ParseAnd(env, [LPar] + Parts(collect, true) + [RPar] + ([And] + ([LPar] + Parts(filters, true) + [RPar] + [RPar])))
         == Ok(Meaning(env, collect) && Meaning(env, filters), [RPar])
  {
    GroupMeans(env, collect, [And] + ([LPar] + Parts(filters, true) + [RPar] + [RPar]));
    SecondGroup(env, Meaning(env, collect), filters);
  }

  /** What stands between the outer parentheses. */
  function Inner(c: seq<Tok>, f: seq<Tok>): seq<Tok> {
    if c == [] && f == [] then [TrueLit]
    else if f == [] then [LPar] + c + [RPar]
    else if c == [] then [LPar] + f + [RPar]
    else [LPar] + c + [RPar] + [And] + [LPar] + f + [RPar]
  }

  lemma InnerMeans(env: Env, collect: seq<Rule>, filters: seq<Rule>)
    ensures ParseAnd(env, Inner(Parts(collect, true), Parts(filters, true)) + [RPar])
         == Ok(Meaning(env, collect) && Meaning(env, filters), [RPar])
  {
    var c, f, x := Parts(collect, true), Parts(filters, true), [RPar];
    EmptyText(collect);
    EmptyText(filters);
    if c == [] && f == [] {
      assert ([TrueLit] + x)[1..] == x;
      AndStops(env, true);
    } else if f == [] {
      OneGroup(env, collect);
    } else if c == [] {
      OneGroup(env, filters);
    } else {
      assert Inner(c, f) + x == [LPar] + c + [RPar] + ([And] + ([LPar] + f + [RPar] + x));
      TwoGroups(env, collect, filters);
    }
  }

  /** dt_collection_get_extended_where with nothing excluded. */
  function Where(collect: seq<Rule>, filters: seq<Rule>): seq<Tok> {
    [LPar] + (Inner(Parts(collect, true), Parts(filters, true)) + [RPar])
  }

  /** A whole parenthesised text. */
  lemma Enclosed(env: Env, inner: seq<Tok>, v: bool)
    requires ParseAnd(env, inner) == Ok(v, [RPar])
    ensures ParseOr(env, [LPar] + inner) == Ok(v, [])
  {
    var ts := [LPar] + inner;
    assert ts[1..] == inner;
    AndStops(env, v);
    assert ParseOr(env, inner) == Ok(v, [RPar]);
    assert ParseNot(env, ts) == Ok(v, []);
    assert ParseAnd(env, ts) == Ok(v, []);
  }

  /**
    For every rule list the WHERE text is a well-formed expression, parsed to its very end, and means
    the collect rules and the filters together.
   */
  lemma WhereMeans(env: Env, collect: seq<Rule>, filters: seq<Rule>)
    ensures ParseOr(env, Where(collect, filters)) == Ok(Meaning(env, collect) && Meaning(env, filters), [])
  {
    InnerMeans(env, collect, filters);
    Enclosed(env, Inner(Parts(collect, true), Parts(filters, true)) + [RPar], Meaning(env, collect) && Meaning(env, filters));
  }

  function SwitchedOn(rs: seq<Rule>): seq<Rule> {
    if rs == [] then [] else (if rs[0].off then [] else [rs[0]]) + SwitchedOn(rs[1..])
  }

  /** A switched-off filter leaves the same text as a deleted one. */
  lemma {:induction false} OffIsDeleted(rs: seq<Rule>, first: bool)
    ensures Parts(rs, first) == Parts(SwitchedOn(rs), first)
  {
    if rs != [] {
      OffIsDeleted(rs[1..], first && !Active(rs[0]));
      if rs[0].off {
        assert SwitchedOn(rs) == SwitchedOn(rs[1..]);
      } else {
        assert SwitchedOn(rs)[1..] == SwitchedOn(rs[1..]);
      }
    }
  }

  // ---------------------------------------------------------------- the loops

  /** _get_query_part: the rule's text, and the count of rules that produced some. */
  method GetQueryPart(r: Rule, nb: nat) returns (part: seq<Tok>, nb': nat)
    ensures part == Part(r, nb == 0)
    ensures nb' == 0 <==> nb == 0 && !Active(r)
  {
    part, nb' := [], nb;
    if !r.off {
      if r.text.None? {
        if r.mode == ModeOr {
          part := if nb == 0 then [TrueLit] else [Or, TrueLit];
          nb' := nb + 1;
        }
      } else {
        if nb == 0 && r.mode == ModeAndNot {
          part := [TrueLit, And, Not, Atom(r.text.value)];
        } else if nb == 0 {
          part := [Atom(r.text.value)];
        } else {
          part := Conj(r.mode) + [Atom(r.text.value)];
        }
        nb' := nb + 1;
      }
    }
  }

  lemma PartsStep(done: seq<Tok>, rs: seq<Rule>, i: nat, first: bool)
    requires i < |rs|
    ensures done + Parts(rs[i..], first) == done + Part(rs[i], first) + Parts(rs[i + 1..], first && !Active(rs[i]))
  {
    assert rs[i..][1..] == rs[i + 1..];
  }

  /** The rule loop of dt_collection_update_query. */
  method QueryParts(rs: seq<Rule>) returns (parts: seq<seq<Tok>>)
    ensures |parts| == |rs| && Concat(parts) == Parts(rs, true)
  {
    parts := [];
    var nb: nat := 0;
    assert rs[0..] == rs;
    for i := 0 to |rs|
      invariant |parts| == i
      invariant Concat(parts) + Parts(rs[i..], nb == 0) == Parts(rs, true)
    {
      PartsStep(Concat(parts), rs, i, nb == 0);
      var part: seq<Tok>;
      part, nb := GetQueryPart(rs[i], nb);
      ConcatAppend(parts, part);
      parts := parts + [part];
    }
  }

  function Concat(parts: seq<seq<Tok>>): seq<Tok> {
    if parts == [] then [] else parts[0] + Concat(parts[1..])
  }

  lemma ConcatAppend(parts: seq<seq<Tok>>, p: seq<Tok>)
    ensures Concat(parts + [p]) == Concat(parts) + p
  {
    if parts == [] {
      assert [p][1..] == [];
    } else {
      assert (parts + [p])[1..] == parts[1..] + [p];
      ConcatAppend(parts[1..], p);
    }
  }

  /** The body of dt_collection_get_extended_where on the two joined texts. */
  method Enclose(c: seq<Tok>, f: seq<Tok>) returns (complete: seq<Tok>)
    ensures complete == Inner(c, f)
  {
    complete := [];
    if c != [] {
      complete := complete + ([LPar] + c + [RPar]);
    }
    if f != [] {
      if complete != [] {
        complete := complete + [And];
      }
      complete := complete + ([LPar] + f + [RPar]);
    }
    if complete == [] {
      complete := [TrueLit];
    }
  }

  function Clamp(n: int, lo: int, hi: int): int { if n < lo then lo else if n > hi then hi else n }

  const MAX_RULES := 10

  /** At least one collect rule is used and at most ten of either kind. */
  function RuleCount(n: int): nat { Clamp(n, 1, MAX_RULES) }
  function FilterCount(n: int): nat { Clamp(n, 0, MAX_RULES) }

  /** The first n rules of the configuration. */
  function First(conf: nat -> Rule, n: nat): (rs: seq<Rule>)
    ensures |rs| == n
  {
    seq(n, i requires 0 <= i < n => conf(i))
  }

  /** Collect rules are never switched off. */
  function CollectRules(conf: nat -> Rule, n: nat): seq<Rule> {
    First((i: nat) => conf(i).(off := false), n)
  }

  /** The part of dt_collection_update_query that fills the array of query parts: first the rules, then the filters. */
  method UpdateQuery(collect: nat -> Rule, numRules: int, filters: nat -> Rule, numFilters: nat) returns (whereExt: seq<seq<Tok>>)
    ensures var nr, nf := RuleCount(numRules), FilterCount(numFilters);
            && |whereExt| == nr + nf
            && Concat(whereExt[..nr]) == Parts(CollectRules(collect, nr), true)
            && Concat(whereExt[nr..]) == Parts(First(filters, nf), true)
  {
    var nr, nf := RuleCount(numRules), if numFilters < MAX_RULES then numFilters else MAX_RULES;
    var a := QueryParts(CollectRules(collect, nr));
    var b := QueryParts(First(filters, nf));
    whereExt := a + b;
    assert whereExt[..nr] == a && whereExt[nr..] == b;
  }

  /** Up to n parts from position at on; the array ends earlier or later. */
  method JoinFrom(parts: seq<seq<Tok>>, at: nat, n: nat) returns (txt: seq<Tok>)
    requires at <= |parts|
    ensures txt == Concat(parts[at..if at + n <= |parts| then at + n else |parts|])
  {
    txt := Joined(parts[at..if at + n <= |parts| then at + n else |parts|]);
  }

  /** dt_collection_get_extended_where with nothing excluded, on the array of query parts. */
  method ExtendedWhere(whereExt: seq<seq<Tok>>, numRules: int, numFilters: int) returns (text: seq<Tok>)
    requires |whereExt| >= RuleCount(numRules)
    ensures var nr, nf := RuleCount(numRules), FilterCount(numFilters);
            |whereExt| == nr + nf ==> text == [LPar] + (Inner(Concat(whereExt[..nr]), Concat(whereExt[nr..])) + [RPar])
  {
    var nr, nf := RuleCount(numRules), FilterCount(numFilters);
    var rules := JoinFrom(whereExt, 0, nr);
    var more := JoinFrom(whereExt, nr, nf);
    assert whereExt[0..nr] == whereExt[..nr];
    assert |whereExt| == nr + nf ==> whereExt[nr..nr + nf] == whereExt[nr..];
    var complete := Enclose(rules, more);
    text := [LPar] + (complete + [RPar]);
  }

  /** rs are the collect rules in use: at least one and at most ten, as configured and never switched off. */
  ghost predicate InUse(rs: seq<Rule>, collect: nat -> Rule, numRules: int) {
    && |rs| == (if numRules < 1 then 1 else if numRules > 10 then 10 else numRules)
    && forall k: nat :: k < |rs| ==> rs[k].text == collect(k).text && rs[k].mode == collect(k).mode && !rs[k].off
  }

  /** fs are the filters in use: at most ten, as configured. */
  ghost predicate FiltersInUse(fs: seq<Rule>, filters: nat -> Rule, numFilters: nat) {
    && |fs| == (if numFilters > 10 then 10 else numFilters)
    && forall k: nat :: k < |fs| ==> fs[k] == filters(k)
  }

  lemma RulesInUse(collect: nat -> Rule, numRules: int, filters: nat -> Rule, numFilters: nat)
    ensures InUse(CollectRules(collect, RuleCount(numRules)), collect, numRules)
    ensures FiltersInUse(First(filters, FilterCount(numFilters)), filters, numFilters)
  {
    FirstIs((i: nat) => collect(i).(off := false), RuleCount(numRules));
    FirstIs(filters, FilterCount(numFilters));
  }

  lemma FirstIs(conf: nat -> Rule, n: nat)
    ensures forall k: nat :: k < n ==> First(conf, n)[k] == conf(k)
  {
  }

  /** From the configuration to the text: it means the rules and the filters in use. */
  method WhereText(collect: nat -> Rule, numRules: int, filters: nat -> Rule, numFilters: nat) returns (text: seq<Tok>)
    ensures forall env, rs, fs :: InUse(rs, collect, numRules) && FiltersInUse(fs, filters, numFilters) ==>
              ParseOr(env, text) == Ok(Meaning(env, rs) && Meaning(env, fs), [])
    ensures exists rs, fs :: InUse(rs, collect, numRules) && FiltersInUse(fs, filters, numFilters) && text == Where(rs, fs)
  {
    var whereExt := UpdateQuery(collect, numRules, filters, numFilters);
    text := ExtendedWhere(whereExt, numRules, numFilters);
    ghost var rs, fs := CollectRules(collect, RuleCount(numRules)), First(filters, FilterCount(numFilters));
    RulesInUse(collect, numRules, filters, numFilters);
    assert text == Where(rs, fs);
    forall env, rs', fs' | InUse(rs', collect, numRules) && FiltersInUse(fs', filters, numFilters)
      ensures ParseOr(env, text) == Ok(Meaning(env, rs') && Meaning(env, fs'), [])
    {
      SameTextRules(rs, rs', collect, numRules);
      assert fs == fs';
      WhereMeans(env, rs, fs);
    }
  }

  lemma SameTextRules(rs: seq<Rule>, rs': seq<Rule>, collect: nat -> Rule, numRules: int)
    requires InUse(rs, collect, numRules) && InUse(rs', collect, numRules)
    ensures rs == rs'
  {
    forall k: nat | k < |rs| ensures rs[k] == rs'[k] {
      assert rs[k].text == collect(k).text && rs'[k].text == collect(k).text;
    }
  }

  method Joined(parts: seq<seq<Tok>>) returns (txt: seq<Tok>)
    ensures txt == Concat(parts)
  {
    txt := [];
    for i := 0 to |parts|
      invariant txt == Concat(parts[..i])
    {
      assert parts[..i + 1] == parts[..i] + [parts[i]];
      ConcatAppend(parts[..i], parts[i]);
      txt := txt + parts[i];
    }
    assert parts[..|parts|] == parts;
  }
}
