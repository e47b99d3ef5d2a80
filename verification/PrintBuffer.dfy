/**
  The serialized collection in a character buffer of limited size. Every print is an snprintf behind the
  ones before it; the room left is an int that may become negative and is then taken for a huge size.
 */
module PrintBuffer {
  import opened Serializer

  /**
    A buffer after some prints: the C string it holds, what the caller counts as room left, and whether
    every write so far was inside.
   */
  datatype Buffer = Buffer(text: string, left: int, inside: bool)

  function Empty(size: nat): Buffer { Buffer("", size, true) }

  /** At most n characters of s. */
  function Head(s: string, n: int): (h: string)
    ensures |h| <= |s| && h == s[..|h|] && |h| == if n < 0 then 0 else if n < |s| then n else |s|
  {
    if n <= 0 then "" else if n < |s| then s[..n] else s
  }

  /** One snprintf: room for the terminator is kept, no room prints nothing, negative room prints outside. */
  function Put(b: Buffer, c: string): Buffer {
    if !b.inside || b.left < 0 then b.(inside := false)
    else Buffer(b.text + Head(c, b.left - 1), b.left - |c|, true)
  }

  function PutAll(b: Buffer, cs: seq<string>): Buffer {
    if cs == [] then b else Put(PutAll(b, cs[..|cs| - 1]), cs[|cs| - 1])
  }

  function Concat(cs: seq<string>): string {
    if cs == [] then "" else Concat(cs[..|cs| - 1]) + cs[|cs| - 1]
  }

  predicate NonEmpty(cs: seq<string>) { forall i :: 0 <= i < |cs| ==> cs[i] != "" }

  lemma HeadOfConcat(a: string, c: string, size: nat)
    requires |a| <= size
    ensures Head(a, size - 1) + Head(c, size - |a| - 1) == Head(a + c, size - 1)
  {
  }

  /** Printing is cutting: the string held is the front of everything printed. */
  lemma {:induction false} PutAllIs(size: nat, cs: seq<string>)
    requires cs != [] && NonEmpty(cs)
    ensures var b := PutAll(Empty(size), cs);
            && (b.inside <==> |Concat(cs[..|cs| - 1])| <= size)
            && (b.inside ==> b.left == size - |Concat(cs)| && b.text == Head(Concat(cs), size - 1))
  {
    var front, c := cs[..|cs| - 1], cs[|cs| - 1];
    var a, b := Concat(front), PutAll(Empty(size), front);
    if front != [] {
      PutAllIs(size, front);
      assert |Concat(front[..|front| - 1])| < |a|;
    }
    if |a| <= size {
      assert b.inside && b.left == size - |a| && b.text == Head(a, size - 1);
      HeadOfConcat(a, c, size);
    }
  }

  // ---------------------------------------------------------------- the pieces of a collection

  /** The prints of one rule. */
  function Parts(r: Rule): seq<string> { [Print(r.mode) + ":", Print(r.item) + ":", Normal(r).str + "$"] }

  /** The prints of the rules, in order. */
  function RulePieces(rs: seq<Rule>): seq<string> {
    if rs == [] then [] else RulePieces(rs[..|rs| - 1]) + Parts(rs[|rs| - 1])
  }

  function Pieces(n: int, rs: seq<Rule>): seq<string> { [Print(n) + ":"] + RulePieces(rs) }

  /** What dt_collection_serialize leaves in a buffer of the given size. */
  function Stored(rs: seq<Rule>, size: nat): Buffer { PutAll(Empty(size), Pieces(|rs|, rs)) }

  lemma PrintNotEmpty(n: int)
    ensures |Print(n)| >= 1
  {
  }

  lemma ConcatSnoc(cs: seq<string>, c: string)
    ensures Concat(cs + [c]) == Concat(cs) + c
  {
    assert (cs + [c])[..|cs|] == cs;
  }

  lemma {:induction false} PiecesNonEmpty(n: int, rs: seq<Rule>)
    ensures NonEmpty(RulePieces(rs)) && NonEmpty(Pieces(n, rs))
  {
    PrintNotEmpty(n);
    if rs != [] {
      PiecesNonEmpty(n, rs[..|rs| - 1]);
    }
  }

  /** The text up to the string of the last rule, followed by s. */
  function Cut(rs: seq<Rule>, s: string): string
    requires rs != []
  {
    Print(|rs|) + (":" + (RulesText(rs[..|rs| - 1]) + Numbers(rs[|rs| - 1], s)))
  }

  /** The same without the colon in front of the string. */
  function Stub(rs: seq<Rule>): string
    requires rs != []
  {
    var r := rs[|rs| - 1];
    Print(|rs|) + (":" + (RulesText(rs[..|rs| - 1]) + (Print(r.mode) + (":" + Print(r.item)))))
  }

  lemma CutAppend(rs: seq<Rule>, s: string, t: string)
    requires rs != []
    ensures Cut(rs, s + t) == Cut(rs, s) + t
  {
    var front, r := RulesText(rs[..|rs| - 1]), rs[|rs| - 1];
    var u := Numbers(r, s);
    NumbersAppend(r, s, t);
    Associate(front, u, t);
    Associate(":", front + u, t);
    Associate(Print(|rs|), ":" + (front + u), t);
  }

  lemma StubAppend(rs: seq<Rule>)
    requires rs != []
    ensures Stub(rs) + ":" == Cut(rs, "")
  {
    var front, r := RulesText(rs[..|rs| - 1]), rs[|rs| - 1];
    var u := Print(r.mode) + (":" + Print(r.item));
    assert u + ":" == Numbers(r, "");
    Associate(front, u, ":");
    Associate(":", front + u, ":");
    Associate(Print(|rs|), ":" + (front + u), ":");
  }

  /** Text as its last cut. */
  lemma TextIsCut(rs: seq<Rule>)
    requires rs != []
    ensures Text(rs) == Cut(rs, Normal(rs[|rs| - 1]).str + "$")
  {
    RulesTextLast(rs);
  }

  lemma RulesTextLast(rs: seq<Rule>)
    requires rs != []
    ensures RulesText(rs) == RulesText(rs[..|rs| - 1]) + RuleText(rs[|rs| - 1])
  {
    LastApart(rs);
    RulesTextAppend(rs[..|rs| - 1], rs[|rs| - 1]);
  }

  lemma LastApart<T>(s: seq<T>)
    requires s != []
    ensures s == s[..|s| - 1] + [s[|s| - 1]]
  {
  }

  lemma ThreePieces(n: int, rs: seq<Rule>)
    requires rs != []
    ensures var r, p := rs[|rs| - 1], Pieces(n, rs[..|rs| - 1]);
            var q := p + [Print(r.mode) + ":"] + [Print(r.item) + ":"];
            Pieces(n, rs) == q + [Normal(r).str + "$"] && Pieces(n, rs)[..|Pieces(n, rs)| - 1] == q
            && Concat(q) == Concat(p) + (Print(r.mode) + ":") + (Print(r.item) + ":")
            && Concat(Pieces(n, rs)) == Concat(q) + (Normal(r).str + "$")
  {
    var r, p := rs[|rs| - 1], Pieces(n, rs[..|rs| - 1]);
    var a, b, c := Print(r.mode) + ":", Print(r.item) + ":", Normal(r).str + "$";
    ConcatSnoc(p, a);
    ConcatSnoc(p + [a], b);
    ConcatSnoc(p + [a] + [b], c);
    assert Pieces(n, rs) == p + [a] + [b] + [c];
  }

  /** All pieces together are the text. */
  lemma {:induction false} PiecesConcat(n: int, rs: seq<Rule>)
    ensures Concat(Pieces(n, rs)) == Print(n) + (":" + RulesText(rs))
  {
    if rs == [] {
      NoPieces(n);
    } else {
      PiecesConcat(n, rs[..|rs| - 1]);
      RulePiecesConcat(n, rs, RulesText(rs[..|rs| - 1]));
    }
  }

  lemma NoPieces(n: int)
    ensures Concat(Pieces(n, [])) == Print(n) + (":" + RulesText([]))
  {
    assert Pieces(n, []) == [] + [Print(n) + ":"];
    ConcatSnoc([], Print(n) + ":");
  }

  lemma RulePiecesConcat(n: int, rs: seq<Rule>, t: string)
    requires rs != [] && t == RulesText(rs[..|rs| - 1]) && Concat(Pieces(n, rs[..|rs| - 1])) == Print(n) + (":" + t)
    ensures Concat(Pieces(n, rs)) == Print(n) + (":" + RulesText(rs))
  {
    var r := rs[|rs| - 1];
    var c := Normal(r).str + "$";
    calc {
      Concat(Pieces(n, rs));
      { ThreePieces(n, rs); }
      (Print(n) + (":" + t)) + (Print(r.mode) + ":") + (Print(r.item) + ":") + c;
      { Regroup(Print(n), t, Print(r.mode), Print(r.item), c); }
      Print(n) + (":" + (t + RuleText(r)));
      { RulesTextLast(rs); }
      Print(n) + (":" + RulesText(rs));
    }
  }

  lemma Regroup(n: string, t: string, m: string, i: string, c: string)
    ensures (n + (":" + t)) + (m + ":") + (i + ":") + c == n + (":" + (t + (m + (":" + (i + (":" + c))))))
    ensures (n + (":" + t)) + (m + ":") + (i + ":") == n + (":" + (t + (m + (":" + (i + (":" + ""))))))
  {
  }

  /** The last piece comes behind the cut at the last string. */
  lemma FrontConcat(rs: seq<Rule>)
    requires rs != []
    ensures Concat(Pieces(|rs|, rs)[..|Pieces(|rs|, rs)| - 1]) == Cut(rs, "")
  {
    var front, r := rs[..|rs| - 1], rs[|rs| - 1];
    ThreePieces(|rs|, rs);
    PiecesConcat(|rs|, front);
    Regroup(Print(|rs|), RulesText(front), Print(r.mode), Print(r.item), "");
  }

  /** The buffer holds the front of the text; it was not left exactly if the last print found room or none. */
  lemma StoredIs(rs: seq<Rule>, size: nat)
    requires rs != []
    ensures var b := Stored(rs, size);
            && (b.inside <==> |Cut(rs, "")| <= size)
            && (b.inside ==> b.left == size - |Text(rs)| && b.text == Head(Text(rs), size - 1))
  {
    PiecesNonEmpty(|rs|, rs);
    PutAllIs(size, Pieces(|rs|, rs));
    FrontConcat(rs);
    PiecesConcat(|rs|, rs);
  }

  // ---------------------------------------------------------------- scanning what was cut

  lemma {:induction false} WholeSet(s: string, max: nat)
    requires '$' !in s && |s| <= max
    ensures ScanSet(s, max) == s
  {
    if s != "" {
      WholeSet(s[1..], max - 1);
    }
  }

  lemma LastRule(r: Rule, s: string)
    requires Plain(s)
    ensures ScanRules(ScanRule, Numbers(r, s), 1) == if s == "" then [] else [Rule(r.mode, r.item, s)]
  {
    WholeSet(s, MAX_STRING);
    NumbersScan(r, s);
  }

  lemma NoLastRule(r: Rule)
    ensures ScanRules(ScanRule, Print(r.mode) + (":" + Print(r.item)), 1) == []
  {
    FieldRoundTrip(r.mode, Print(r.item));
    IntRoundTrip(r.item, "");
    assert Print(r.item) + "" == Print(r.item);
  }

  /** Whatever scans behind all rules but the last. */
  lemma LastDecodes(rs: seq<Rule>, rest: string, last: seq<Rule>)
    requires rs != [] && AllPlain(rs) && last == ScanRules(ScanRule, rest, 1)
    ensures var front := rs[..|rs| - 1];
            Decode(Print(|rs|) + (":" + (RulesText(front) + rest))) == Outcome(|rs|, Normals(front) + last)
  {
    var front := rs[..|rs| - 1];
    PlainScans(front);
    RulesScan(ScanRule, front, rest, 1, |rs|, last);
    CountScans(|rs|, RulesText(front) + rest);
  }

  lemma CutDecodes(rs: seq<Rule>, s: string)
    requires rs != [] && AllPlain(rs) && Plain(s)
    ensures var front, r := rs[..|rs| - 1], rs[|rs| - 1];
            Decode(Cut(rs, s)) == Outcome(|rs|, Normals(front) + if s == "" then [] else [Rule(r.mode, r.item, s)])
  {
    var r := rs[|rs| - 1];
    LastRule(r, s);
    LastDecodes(rs, Numbers(r, s), ScanRules(ScanRule, Numbers(r, s), 1));
  }

  lemma StubDecodes(rs: seq<Rule>)
    requires rs != [] && AllPlain(rs)
    ensures Decode(Stub(rs)) == Outcome(|rs|, Normals(rs[..|rs| - 1]))
  {
    var r := rs[|rs| - 1];
    NoLastRule(r);
    LastDecodes(rs, Print(r.mode) + (":" + Print(r.item)), []);
    assert Normals(rs[..|rs| - 1]) + [] == Normals(rs[..|rs| - 1]);
  }

  /** Is that the normal form of the collection? */
  lemma OutcomeIsNormal(rs: seq<Rule>, s: string)
    requires rs != []
    ensures var front, r := rs[..|rs| - 1], rs[|rs| - 1];
            var last := if s == "" then [] else [Rule(r.mode, r.item, s)];
            Outcome(|rs|, Normals(front) + last) == Decoded(|rs|, Normals(rs))
            <==> s == Normal(r).str || (s == "" && Normals(rs) == [DEFAULT_RULE])
  {
    var front, r := rs[..|rs| - 1], rs[|rs| - 1];
    assert Normals(rs) == Normals(front) + [Normal(r)];
  }

  // ---------------------------------------------------------------- the round trip through a buffer

  /** The collection survives a buffer of the given size. */
  ghost predicate Restored(rs: seq<Rule>, size: nat) {
    Stored(rs, size).inside && Decode(Stored(rs, size).text) == Decoded(|rs|, Normals(rs))
  }

  /** The text fits, if need be without its last '$'; the default rule also comes back from less. */
  predicate Fits(rs: seq<Rule>, size: nat) {
    |Text(rs)| <= size || (Normals(rs) == [DEFAULT_RULE] && size >= 6)
  }

  lemma HeadOfCut(rs: seq<Rule>, s: string, n: nat)
    requires rs != []
    ensures Head(Cut(rs, s), |Cut(rs, "")| + n) == Cut(rs, Head(s, n))
    ensures |Cut(rs, s)| == |Cut(rs, "")| + |s|
  {
    var h := Head(s, n);
    var t := s[|h|..];
    assert "" + s == s && "" + h == h && h + t == s;
    CutAppend(rs, "", s);
    CutAppend(rs, "", h);
    CutAppend(rs, h, t);
  }

  /** With room behind the cut, the buffer holds it with the front of the last print. */
  lemma StoredCut(rs: seq<Rule>, size: nat, n: nat)
    requires rs != [] && size == |Cut(rs, "")| + 1 + n
    ensures var b, str := Stored(rs, size), Normal(rs[|rs| - 1]).str;
            b.inside && b.text == Cut(rs, Head(str + "$", n)) && |Text(rs)| == |Cut(rs, "")| + |str| + 1
  {
    StoredIs(rs, size);
    TextIsCut(rs);
    HeadOfCut(rs, Normal(rs[|rs| - 1]).str + "$", n);
  }

  /** A cut inside the last string. */
  lemma CutInString(rs: seq<Rule>, size: nat, n: nat)
    requires rs != [] && AllPlain(rs) && size == |Cut(rs, "")| + 1 + n && n <= |Normal(rs[|rs| - 1]).str|
    ensures Restored(rs, size) <==> n == |Normal(rs[|rs| - 1]).str| || (n == 0 && Normals(rs) == [DEFAULT_RULE])
  {
    var str := Normal(rs[|rs| - 1]).str;
    var s := Head(str, n);
    StoredCut(rs, size, n);
    assert Head(str + "$", n) == s;
    CutDecodes(rs, s);
    OutcomeIsNormal(rs, s);
  }

  lemma NotCut(rs: seq<Rule>, size: nat, n: nat)
    requires rs != [] && AllPlain(rs) && size == |Cut(rs, "")| + 1 + n && n > |Normal(rs[|rs| - 1]).str|
    ensures Restored(rs, size)
  {
    var str := Normal(rs[|rs| - 1]).str;
    StoredCut(rs, size, n);
    assert Head(str + "$", n) == str + "$";
    TextIsCut(rs);
    RoundTrip(rs);
  }

  /** No room at all for the last print, and none for the colon before it. */
  lemma ColonLost(rs: seq<Rule>)
    requires rs != [] && AllPlain(rs)
    ensures Restored(rs, |Cut(rs, "")|) <==> Normals(rs) == [DEFAULT_RULE]
  {
    var size, str := |Cut(rs, "")|, Normal(rs[|rs| - 1]).str;
    StoredIs(rs, size);
    StubAppend(rs);
    CutAppend(rs, "", str + "$");
    TextIsCut(rs);
    assert "" + (str + "$") == str + "$";
    assert Head(Text(rs), size - 1) == Stub(rs);
    StubDecodes(rs);
    OutcomeIsNormal(rs, "");
  }

  lemma DefaultLength(rs: seq<Rule>)
    requires rs != [] && Normals(rs) == [DEFAULT_RULE]
    ensures |Cut(rs, "")| == 6 && |Normal(rs[|rs| - 1]).str| == 1
  {
    assert Normals(rs)[0] == Normal(rs[0]) && |rs| == 1;
    assert rs[..0] == [] && |Print(0)| == 1 && |Print(1)| == 1;
  }

  /**
    A collection of at least one rule survives the buffer if and only if its strings are plain and its
    text fits. Both prints that leave the buffer and prints that are cut short are covered.
   */
  lemma RoundTripExact(rs: seq<Rule>, size: nat)
    requires rs != []
    ensures Restored(rs, size) <==> AllPlain(rs) && Fits(rs, size)
  {
    if AllPlain(rs) {
      PlainRoundTrip(rs, size);
    } else if Restored(rs, size) {
      DecodedPlain(Stored(rs, size).text);
      PlainNormals(rs);
    }
  }

  lemma PlainRoundTrip(rs: seq<Rule>, size: nat)
    requires rs != [] && AllPlain(rs)
    ensures Restored(rs, size) <==> Fits(rs, size)
  {
    var p, str := |Cut(rs, "")|, Normal(rs[|rs| - 1]).str;
    StoredCut(rs, p + 1, 0);
    if Normals(rs) == [DEFAULT_RULE] { DefaultLength(rs); }
    if size < p {
      StoredIs(rs, size);
    } else if size == p {
      ColonLost(rs);
    } else if size - p - 1 <= |str| {
      CutInString(rs, size, size - p - 1);
    } else {
      NotCut(rs, size, size - p - 1);
    }
  }

  // ---------------------------------------------------------------- the 4096 bytes of the callers

  /** Rules whose strings fill the scan buffer. */
  function FullRules(n: nat): (rs: seq<Rule>)
    ensures |rs| == n && forall i :: 0 <= i < n ==> |rs[i].str| == MAX_STRING && rs[i].mode == 0 && rs[i].item == 0 && '$' !in rs[i].str
  {
    seq(n, _ => Rule(0, 0, seq(MAX_STRING, _ => 'a')))
  }

  lemma {:induction false} FullLength(rs: seq<Rule>)
    requires forall i :: 0 <= i < |rs| ==> |rs[i].str| == MAX_STRING && rs[i].mode == 0 && rs[i].item == 0
    ensures |RulesText(rs)| == 404 * |rs|
  {
    if rs != [] {
      FullLength(rs[1..]);
      assert |Print(0)| == 1;
      assert |RuleText(rs[0])| == 404;
    }
  }

  /** Eleven full rules stay in the buffer, but the last one is cut short. */
  lemma ElevenRulesAreCut(rs: seq<Rule>)
    requires rs == FullRules(11)
    ensures AllPlain(rs) && Stored(rs, 4096).inside && !Restored(rs, 4096)
  {
    FullCut(11);
    StoredIs(rs, 4096);
    RoundTripExact(rs, 4096);
  }

  /** The last of twelve full rules is printed outside. */
  lemma TwelveRulesOverrun(rs: seq<Rule>)
    requires rs == FullRules(12)
    ensures AllPlain(rs) && !Stored(rs, 4096).inside
  {
    FullCut(12);
    StoredIs(rs, 4096);
  }

  lemma FullCut(n: nat)
    requires 10 <= n < 100
    ensures var rs := FullRules(n); |Text(rs)| == 3 + 404 * n && |Cut(rs, "")| == 3 + 404 * n - 400
  {
    var rs := FullRules(n);
    FullLength(rs);
    TwoDigits(n);
    TextIsCut(rs);
    HeadOfCut(rs, Normal(rs[n - 1]).str + "$", 0);
  }

  lemma TwoDigits(n: nat)
    requires 10 <= n < 100
    ensures |Print(n)| == 2
  {
    assert |Digits(n / 10)| == 1;
  }

  lemma ShortPrint(n: nat)
    requires n < 1000
    ensures |Print(n)| <= 3 && (n <= 10 ==> |Print(n)| <= 2)
  {
    assert n >= 10 ==> |Digits(n)| == |Digits(n / 10)| + 1;
    assert n >= 100 ==> |Digits(n / 10)| == |Digits(n / 10 / 10)| + 1;
  }

  /** Mode and item numbers of at most three digits. */
  predicate SmallNumbers(rs: seq<Rule>) {
    forall i :: 0 <= i < |rs| ==> 0 <= rs[i].mode < 1000 && 0 <= rs[i].item < 1000
  }

  lemma {:induction false} SmallLength(rs: seq<Rule>)
    requires AllPlain(rs) && SmallNumbers(rs)
    ensures |RulesText(rs)| <= 408 * |rs|
  {
    if rs != [] {
      SmallLength(rs[1..]);
      ShortPrint(rs[0].mode);
      ShortPrint(rs[0].item);
      assert |RuleText(rs[0])| <= 408;
    }
  }

  /** Ten rules, the most that a query uses, always come back. */
  lemma TenRulesFit(rs: seq<Rule>)
    requires 1 <= |rs| <= 10 && AllPlain(rs) && SmallNumbers(rs)
    ensures |Text(rs)| < 4096 && Restored(rs, 4096)
  {
    SmallLength(rs);
    ShortPrint(|rs|);
    RoundTripExact(rs, 4096);
  }
}
