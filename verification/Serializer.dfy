/**
  Collections as text: what dt_collection_serialize prints and dt_collection_deserialize scans back.
  A C string is the sequence of its characters before the terminator.
 */
module Serializer {
  import opened Options

  datatype Rule = Rule(mode: int, item: int, str: string)

  /** A scanned number and the text behind it. */
  datatype Number = Number(value: int, rest: string)

  /** What deserializing leaves in the configuration: the rule count and the rules written. */
  datatype Decoded = Decoded(count: int, rules: seq<Rule>)

  const DEFAULT_RULE := Rule(0, 0, "%")

  // ---------------------------------------------------------------- printing

  function Digit(d: nat): char
    requires d < 10
  {
    '0' + d as char
  }

  function Digits(n: nat): string {
    if n < 10 then [Digit(n)] else Digits(n / 10) + [Digit(n % 10)]
  }

  /** printf("%d"). */
  function Print(n: int): string { if n < 0 then "-" + Digits(-n) else Digits(n) }

  /** An empty string is stored as the match-all pattern. */
  function Normal(r: Rule): Rule { if r.str == "" then r.(str := "%") else r }

  function RuleText(r: Rule): string {
    Print(r.mode) + (":" + (Print(r.item) + (":" + (Normal(r).str + "$"))))
  }

  function RulesText(rs: seq<Rule>): string {
    if rs == [] then "" else RuleText(rs[0]) + RulesText(rs[1..])
  }

  function Text(rs: seq<Rule>): string { Print(|rs|) + (":" + RulesText(rs)) }

  // ---------------------------------------------------------------- scanning

  predicate IsDigit(c: char) { '0' <= c <= '9' }

  predicate IsSpace(c: char) { c == ' ' || '\t' <= c <= '\r' }

  function SkipSpace(s: string): string {
    if s != "" && IsSpace(s[0]) then SkipSpace(s[1..]) else s
  }

  function ScanDigits(acc: nat, s: string): (r: Number)
    ensures r.value >= 0
    decreases |s|
  {
    if s == "" || !IsDigit(s[0]) then Number(acc, s) else ScanDigits(10 * acc + (s[0] - '0') as nat, s[1..])
  }

  function ScanUnsigned(s: string): Option<Number> {
    if s == "" || !IsDigit(s[0]) then None else Some(ScanDigits(0, s))
  }

  /** scanf("%d"). */
  function ScanInt(text: string): Option<Number> {
    var s := SkipSpace(text);
    if s != "" && s[0] == '-' then
      (match ScanUnsigned(s[1..])
       case None => None
       case Some(n) => Some(n.(value := -n.value)))
    else if s != "" && s[0] == '+' then ScanUnsigned(s[1..])
    else ScanUnsigned(s)
  }

  /** scanf("%d:"): a number and the colon behind it. */
  function ScanField(s: string): Option<Number> {
    match ScanInt(s)
    case None => None
    case Some(n) => if n.rest == "" || n.rest[0] != ':' then None else Some(Number(n.value, n.rest[1..]))
  }

  /** The longest prefix without '$', of at most max characters. */
  function ScanSet(s: string, max: nat): (r: string)
    ensures |r| <= max && '$' !in r
  {
    if s == "" || max == 0 || s[0] == '$' then "" else [s[0]] + ScanSet(s[1..], max - 1)
  }

  const MAX_STRING: nat := 399

  /** scanf("%d:%d:%399[^$]") with all three conversions done. */
  function ScanRule(s: string): Option<Rule> {
    match ScanField(s)
    case None => None
    case Some(m) =>
      match ScanField(m.rest)
      case None => None
      case Some(i) =>
        var str := ScanSet(i.rest, MAX_STRING);
        if str == "" then None else Some(Rule(m.value, i.value, str))
  }

  /** The text behind the first c, or nothing. */
  function SkipPast(s: string, c: char): string {
    if s == "" then "" else if s[0] == c then s[1..] else SkipPast(s[1..], c)
  }

  type Scanner = string -> Option<Rule>

  /** Up to n rules, stopping at the first that does not scan. */
  function ScanRules(scan: Scanner, s: string, n: int): (rs: seq<Rule>)
    ensures |rs| <= if n < 0 then 0 else n
    decreases n
  {
    if n <= 0 then []
    else match scan(s)
      case None => []
      case Some(r) => [r] + ScanRules(scan, SkipPast(s, '$'), n - 1)
  }

  function Count(s: string): int {
    match ScanInt(s)
    case None => 0
    case Some(n) => n.value
  }

  /** The outcome of scanning rs where n rules were announced. */
  function Outcome(n: int, rs: seq<Rule>): Decoded {
    if n < 0 || |rs| == n then Decoded(n, rs)
    else if n == 1 then Decoded(1, [DEFAULT_RULE])
    else Decoded(|rs|, rs)
  }

  function Decode(s: string): Decoded {
    var n := Count(s);
    if n == 0 then Decoded(1, [DEFAULT_RULE]) else Outcome(n, ScanRules(ScanRule, SkipPast(s, ':'), n))
  }

  // ---------------------------------------------------------------- numbers

  /** Scanning printed digits is as if their value had been accumulated. */
  lemma {:induction false} DigitsScan(n: nat, rest: string)
    ensures ScanDigits(0, Digits(n) + rest) == ScanDigits(n, rest)
    ensures IsDigit(Digits(n)[0])
  {
    if n < 10 {
      assert (Digits(n) + rest)[1..] == rest;
    } else {
      var more := [Digit(n % 10)] + rest;
      DigitsScan(n / 10, more);
      assert Digits(n) + rest == Digits(n / 10) + more;
      assert more[1..] == rest;
    }
  }

  predicate NoDigit(rest: string) { rest == "" || !IsDigit(rest[0]) }

  /** A printed natural number starts with a digit, so nothing is skipped in front of it. */
  lemma NaturalScans(n: nat, rest: string)
    requires NoDigit(rest)
    ensures ScanUnsigned(Digits(n) + rest) == Some(Number(n, rest)) && ScanInt(Digits(n) + rest) == Some(Number(n, rest))
  {
    var s := Digits(n) + rest;
    DigitsScan(n, rest);
    assert IsDigit(s[0]) && SkipSpace(s) == s;
  }

  lemma NegativeScans(n: int, rest: string)
    requires n < 0 && NoDigit(rest)
    ensures ScanInt("-" + (Digits(-n) + rest)) == Some(Number(n, rest))
  {
    var t := Digits(-n) + rest;
    var s := "-" + t;
    assert SkipSpace(s) == s && s[1..] == t;
    NaturalScans(-n, rest);
  }

  /** Every integer scans back from its print. */
  lemma IntRoundTrip(n: int, rest: string)
    requires NoDigit(rest)
    ensures ScanInt(Print(n) + rest) == Some(Number(n, rest))
  {
    if n < 0 {
      assert Print(n) + rest == "-" + (Digits(-n) + rest);
      NegativeScans(n, rest);
    } else {
      NaturalScans(n, rest);
    }
  }

  /** The six white space characters, by their codes. */
  predicate White(c: char) { c as int == 32 || 9 <= c as int <= 13 }

  /** White space in front of a number is skipped, and a plus sign is allowed. */
  lemma SpaceAndPlus(n: nat, rest: string, c: char)
    requires NoDigit(rest) && White(c)
    ensures ScanInt([c] + (Print(n) + rest)) == Some(Number(n, rest))
    ensures ScanInt("+" + (Print(n) + rest)) == Some(Number(n, rest))
  {
    var t := Print(n) + rest;
    IntRoundTrip(n, rest);
    NaturalScans(n, rest);
    assert ([c] + t)[1..] == t && ("+" + t)[1..] == t && SkipSpace("+" + t) == "+" + t;
  }

  /** A text that does not start with a number loads the default rule. */
  lemma NoNumber(s: string)
    requires s == "" || !(White(s[0]) || 48 <= s[0] as int <= 57 || s[0] == '+' || s[0] == '-')
    ensures ScanInt(s) == None && Decode(s) == Decoded(1, [Rule(0, 0, "%")])
  {
  }

  lemma FieldRoundTrip(n: int, rest: string)
    ensures ScanField(Print(n) + (":" + rest)) == Some(Number(n, rest))
  {
    IntRoundTrip(n, ":" + rest);
    assert (":" + rest)[1..] == rest;
  }

  lemma DigitsOnly(n: nat)
    ensures forall c <- Digits(n) :: IsDigit(c)
  {
  }

  lemma PrintHasNo(n: int, c: char)
    requires !IsDigit(c) && c != '-'
    ensures c !in Print(n)
  {
    DigitsOnly(if n < 0 then -n else n);
  }

  // ---------------------------------------------------------------- rules

  lemma {:induction false} SkipPastFirst(a: string, c: char, rest: string)
    requires c !in a
    ensures SkipPast(a + ([c] + rest), c) == rest
  {
    var s := a + ([c] + rest);
    if a == "" {
      assert s[1..] == rest;
    } else {
      assert s[1..] == a[1..] + ([c] + rest);
      SkipPastFirst(a[1..], c, rest);
    }
  }

  /** Can the string be told from what follows it, and does it fit the scan buffer? */
  predicate Plain(str: string) { '$' !in str && |str| <= MAX_STRING }

  /** In numbers: no separator, and at most 399 characters. */
  lemma PlainIs(str: string)
    ensures Plain(str) <==> (forall i :: 0 <= i < |str| ==> str[i] != '$') && |str| <= 399
  {}

  lemma {:induction false} SetRoundTrip(str: string, rest: string, max: nat)
    requires '$' !in str && |str| <= max
    ensures ScanSet(str + ("$" + rest), max) == str
  {
    var s := str + ("$" + rest);
    if str != "" {
      assert s[1..] == str[1..] + ("$" + rest);
      SetRoundTrip(str[1..], rest, max - 1);
    }
  }

  /** The two numbers of a rule in front of any text. */
  function Numbers(r: Rule, rest: string): string { Print(r.mode) + (":" + (Print(r.item) + (":" + rest))) }

  /** A rule scans as its numbers and the plain front of what follows them. */
  lemma NumbersScan(r: Rule, rest: string)
    ensures var str := ScanSet(rest, MAX_STRING);
            ScanRule(Numbers(r, rest)) == if str == "" then None else Some(Rule(r.mode, r.item, str))
  {
    FieldRoundTrip(r.mode, Print(r.item) + (":" + rest));
    FieldRoundTrip(r.item, rest);
  }

  lemma RuleTextIs(r: Rule, rest: string)
    ensures RuleText(r) + rest == Numbers(r, Normal(r).str + ("$" + rest))
  {
    var str := Normal(r).str;
    assert (str + "$") + rest == str + ("$" + rest);
  }

  /** The skip goes to the '$' behind a plain string. */
  lemma NumbersSkip(r: Rule, str: string, rest: string)
    requires '$' !in str
    ensures SkipPast(Numbers(r, str + ("$" + rest)), '$') == rest
  {
    var front := Numbers(r, str);
    PrintHasNo(r.mode, '$');
    PrintHasNo(r.item, '$');
    NumbersAppend(r, str, "$" + rest);
    SkipPastFirst(front, '$', rest);
  }

  lemma NumbersAppend(r: Rule, s: string, t: string)
    ensures Numbers(r, s + t) == Numbers(r, s) + t
  {
    var u := Print(r.item) + (":" + s);
    assert Print(r.item) + (":" + (s + t)) == u + t;
    assert Print(r.mode) + (":" + (u + t)) == (Print(r.mode) + (":" + u)) + t;
  }

  lemma RuleSkip(r: Rule, rest: string)
    requires Plain(r.str)
    ensures SkipPast(RuleText(r) + rest, '$') == rest
  {
    RuleTextIs(r, rest);
    NumbersSkip(r, Normal(r).str, rest);
  }

  /** A rule with a plain string scans back, and the skip lands on the next rule. */
  lemma RuleRoundTrip(r: Rule, rest: string)
    requires Plain(r.str)
    ensures ScanRule(RuleText(r) + rest) == Some(Normal(r)) && SkipPast(RuleText(r) + rest, '$') == rest
  {
    var str := Normal(r).str;
    RuleTextIs(r, rest);
    SetRoundTrip(str, rest, MAX_STRING);
    NumbersScan(r, str + ("$" + rest));
    RuleSkip(r, rest);
  }

  function Normals(rs: seq<Rule>): (ns: seq<Rule>)
    ensures |ns| == |rs| && forall i :: 0 <= i < |rs| ==> ns[i] == Normal(rs[i])
  {
    seq(|rs|, i requires 0 <= i < |rs| => Normal(rs[i]))
  }

  predicate AllPlain(rs: seq<Rule>) { forall i :: 0 <= i < |rs| ==> Plain(rs[i].str) }

  /** Normalizing does not matter for plainness. */
  lemma PlainNormals(rs: seq<Rule>)
    ensures AllPlain(Normals(rs)) <==> AllPlain(rs)
  {
    if AllPlain(Normals(rs)) {
      forall i | 0 <= i < |rs| ensures Plain(rs[i].str) { assert Normals(rs)[i] == Normal(rs[i]); }
    }
  }

  lemma Associate<T>(a: seq<T>, b: seq<T>, c: seq<T>)
    ensures a + b + c == a + (b + c)
  {
  }

  /** Does the scanner give the rules back from their texts? */
  ghost predicate Scans(scan: Scanner, rs: seq<Rule>) {
    forall i, rest :: 0 <= i < |rs| ==> scan(RuleText(rs[i]) + rest) == Some(Normal(rs[i]))
  }

  /** Rules that scan are found in front of any text, and scanning goes on behind them. */
  lemma {:induction false} RulesScan(scan: Scanner, rs: seq<Rule>, rest: string, m: nat, n: nat, last: seq<Rule>)
    requires AllPlain(rs) && Scans(scan, rs) && n == |rs| + m && last == ScanRules(scan, rest, m)
    ensures ScanRules(scan, RulesText(rs) + rest, n) == Normals(rs) + last
    decreases |rs|
  {
    if rs == [] {
      NoRulesInFront(rest, last);
    } else {
      assert Scans(scan, rs[1..]);
      RulesScan(scan, rs[1..], rest, m, n - 1, last);
      FirstRuleScans(scan, rs, rest, n, last);
    }
  }

  lemma NoRulesInFront(rest: string, last: seq<Rule>)
    ensures RulesText([]) + rest == rest && Normals([]) + last == last
  {
  }

  lemma FirstRuleScans(scan: Scanner, rs: seq<Rule>, rest: string, n: int, last: seq<Rule>)
    requires rs != [] && Plain(rs[0].str) && n >= |rs| && Scans(scan, rs)
    requires ScanRules(scan, RulesText(rs[1..]) + rest, n - 1) == Normals(rs[1..]) + last
    ensures ScanRules(scan, RulesText(rs) + rest, n) == Normals(rs) + last
  {
    var r, tail := rs[0], RulesText(rs[1..]);
    var more, ns := tail + rest, Normals(rs[1..]);
    calc {
      ScanRules(scan, RulesText(rs) + rest, n);
      { Associate(RuleText(r), tail, rest); }
      ScanRules(scan, RuleText(r) + more, n);
      { RuleSkip(r, more); }
      [Normal(r)] + (ns + last);
      { Associate([Normal(r)], ns, last); NormalsFirst(rs); }
      Normals(rs) + last;
    }
  }

  lemma NormalsFirst(rs: seq<Rule>)
    requires rs != []
    ensures Normals(rs) == [Normal(rs[0])] + Normals(rs[1..])
  {
  }

  lemma PlainScans(rs: seq<Rule>)
    requires AllPlain(rs)
    ensures Scans(ScanRule, rs)
  {
    forall i, rest | 0 <= i < |rs| ensures ScanRule(RuleText(rs[i]) + rest) == Some(Normal(rs[i])) {
      RuleRoundTrip(rs[i], rest);
    }
  }

  lemma RulesRoundTrip(rs: seq<Rule>)
    requires AllPlain(rs)
    ensures ScanRules(ScanRule, RulesText(rs), |rs|) == Normals(rs)
  {
    var t := RulesText(rs);
    PlainScans(rs);
    RulesScan(ScanRule, rs, "", 0, |rs|, []);
    assert t + "" == t;
  }

  lemma {:induction false} ScannedPlain(s: string, n: int)
    ensures AllPlain(ScanRules(ScanRule, s, n))
    decreases n
  {
    if n > 0 {
      match ScanRule(s)
      case None =>
      case Some(r) => ScannedPlain(SkipPast(s, '$'), n - 1);
    }
  }

  lemma DecodedPlain(s: string)
    ensures AllPlain(Decode(s).rules)
  {
    ScannedPlain(SkipPast(s, ':'), Count(s));
  }

  lemma CountScans(n: int, rest: string)
    ensures Count(Print(n) + (":" + rest)) == n && SkipPast(Print(n) + (":" + rest), ':') == rest
  {
    IntRoundTrip(n, ":" + rest);
    PrintHasNo(n, ':');
    SkipPastFirst(Print(n), ':', rest);
  }

  /**
    The whole text of at least one rule gives back the rules (empty strings as "%") exactly when every
    string is free of '$' and has at most 399 characters.
   */
  lemma RoundTrip(rs: seq<Rule>)
    requires rs != []
    ensures Decode(Text(rs)) == Decoded(|rs|, Normals(rs)) <==> AllPlain(rs)
  {
    CountScans(|rs|, RulesText(rs));
    if AllPlain(rs) {
      RulesRoundTrip(rs);
    }
    if Decode(Text(rs)) == Decoded(|rs|, Normals(rs)) {
      DecodedPlain(Text(rs));
      PlainNormals(rs);
    }
  }

  /** A string with the separator in it does not come back. */
  lemma SeparatorInString()
    ensures var rs := [Rule(0, 0, "a$b")]; Decode(Text(rs)) != Decoded(|rs|, Normals(rs))
  {
    var rs := [Rule(0, 0, "a$b")];
    assert rs[0].str[1] == '$';
    RoundTrip(rs);
  }

  /** The empty collection comes back as one match-all rule. */
  lemma EmptyCollection()
    ensures Decode(Text([])) == Decoded(1, [Rule(0, 0, "%")])
  {
    CountScans(0, RulesText([]));
  }

  /** Printing what was scanned from a printed collection prints the same text. */
  lemma TextIsStable(rs: seq<Rule>)
    ensures Text(Normals(rs)) == Text(rs)
  {
    StableRules(rs);
  }

  lemma {:induction false} StableRules(rs: seq<Rule>)
    ensures RulesText(Normals(rs)) == RulesText(rs)
  {
    if rs != [] {
      StableRules(rs[1..]);
      assert Normals(rs)[1..] == Normals(rs[1..]);
      assert Normal(Normal(rs[0])) == Normal(rs[0]);
    }
  }

  lemma {:induction false} RulesTextAppend(rs: seq<Rule>, r: Rule)
    ensures RulesText(rs + [r]) == RulesText(rs) + RuleText(r)
  {
    if rs == [] {
      assert (rs + [r])[1..] == [];
    } else {
      assert (rs + [r])[1..] == rs[1..] + [r];
      RulesTextAppend(rs[1..], r);
    }
  }
}
