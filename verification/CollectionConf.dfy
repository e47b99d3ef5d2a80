/** The collect rules in the configuration: dt_collection_serialize and dt_collection_deserialize. */
module CollectionConf {
  import opened Options
  import opened Serializer
  import opened PrintBuffer

  /** Rules k, k + 1, … overwritten by rs. */
  function Store(m: map<int, Rule>, k: int, rs: seq<Rule>): map<int, Rule>
    decreases |rs|
  {
    if rs == [] then m else Store(m[k := rs[0]], k + 1, rs[1..])
  }

  /** A missing key reads as zero or the empty string. */
  function Get(m: map<int, Rule>, k: int): Rule { if k in m then m[k] else Rule(0, 0, "") }

  lemma {:induction false} StoreGet(m: map<int, Rule>, k: int, rs: seq<Rule>, j: int)
    ensures Get(Store(m, k, rs), j) == if k <= j < k + |rs| then rs[j - k] else Get(m, j)
    decreases |rs|
  {
    if rs != [] {
      StoreGet(m[k := rs[0]], k + 1, rs[1..], j);
    }
  }

  lemma {:induction false} StoreLast(m: map<int, Rule>, k: int, rs: seq<Rule>, r: Rule)
    ensures Store(m, k, rs + [r]) == Store(m, k, rs)[k + |rs| := r]
    decreases |rs|
  {
    if rs == [] {
      assert (rs + [r])[1..] == [];
    } else {
      assert (rs + [r])[1..] == rs[1..] + [r];
      StoreLast(m[k := rs[0]], k + 1, rs[1..], r);
    }
  }

  function Listed(m: map<int, Rule>, n: int): (rs: seq<Rule>)
    ensures |rs| == if n < 0 then 0 else n
    ensures forall k :: 0 <= k < |rs| ==> rs[k] == Get(m, k)
  {
    if n <= 0 then [] else Listed(m, n - 1) + [Get(m, n - 1)]
  }

  lemma StoredIsListed(other: map<int, Rule>, rs: seq<Rule>)
    ensures Listed(Store(other, 0, rs), |rs|) == rs
  {
    forall k | 0 <= k < |rs| ensures Get(Store(other, 0, rs), k) == rs[k] {
      StoreGet(other, 0, rs, k);
    }
  }

  /** An announced count of at least one is the number of rules loaded. */
  lemma LoadedCount(s: string)
    ensures Decode(s).count >= 1 ==> |Decode(s).rules| == Decode(s).count
  {
  }

  /** Saving a collection through a buffer and loading it over any other configuration. */
  lemma ConfRoundTrip(m: map<int, Rule>, n: int, size: nat, other: map<int, Rule>)
    requires n >= 1
    ensures var rs, b := Listed(m, n), Stored(Listed(m, n), size);
            var d := Decode(b.text);
            (b.inside && d.count == n && Listed(Store(other, 0, d.rules), n) == Normals(rs))
            <==> AllPlain(rs) && Fits(rs, size)
  {
    var rs, b := Listed(m, n), Stored(Listed(m, n), size);
    RoundTripExact(rs, size);
    LoadedCount(b.text);
    StoredIsListed(other, Decode(b.text).rules);
  }

  lemma StoreOne(m: map<int, Rule>, r: Rule)
    ensures Store(m, 0, [r]) == m[0 := r]
  {
    StoreLast(m, 0, [], r);
    assert [] + [r] == [r];
  }

  /** Skip to just behind the first c, or to the end. */
  method SkipTo(s: string, c: char) returns (rest: string)
    ensures rest == SkipPast(s, c)
  {
    rest := s;
    while rest != "" && rest[0] != c
      invariant SkipPast(rest, c) == SkipPast(s, c)
      decreases |rest|
    {
      rest := rest[1..];
    }
    if rest != "" {
      rest := rest[1..];
    }
  }

  /** One more rule scans and is stored. */
  lemma ScanStep(scan: Scanner, m: map<int, Rule>, k: int, rest: string, n: int)
    requires n > 0 && scan(rest).Some?
    ensures var left := ScanRules(scan, rest, n);
            && left != [] && left[1..] == ScanRules(scan, SkipPast(rest, '$'), n - 1)
            && Store(m, k, left) == Store(m[k := scan(rest).value], k + 1, left[1..])
  {
  }

  // ---------------------------------------------------------------- C strings in cells

  const NUL := '\0'

  /** The characters before the terminator. */
  function CString(cells: seq<char>): string {
    if cells == [] || cells[0] == NUL then "" else [cells[0]] + CString(cells[1..])
  }

  lemma {:induction false} CStringIs(cells: seq<char>, t: string)
    requires |t| < |cells| && cells[..|t|] == t && cells[|t|] == NUL && NUL !in t
    ensures CString(cells) == t
  {
    assert |t| > 0 ==> cells[0] == cells[..|t|][0] == t[0];
    if t != "" {
      assert cells[1..][..|t| - 1] == t[1..];
      CStringIs(cells[1..], t[1..]);
    }
  }

  /** The cells hold the string of the buffer state, terminated once anything has been printed. */
  ghost predicate Shows(cells: seq<char>, b: Buffer) {
    && NUL !in b.text && b.left <= |cells|
    && (b.left > 0 ==> |b.text| == |cells| - b.left)
    && (if cells == [] then b.text == "" else |b.text| < |cells| && cells[..|b.text|] == b.text)
    && (b.left < |cells| && cells != [] ==> cells[|b.text|] == NUL)
  }

  lemma ShowsString(cells: seq<char>, b: Buffer)
    requires Shows(cells, b) && b.left < |cells|
    ensures CString(cells) == b.text
  {
    if cells != [] {
      CStringIs(cells, b.text);
    }
  }

  lemma PutShows(cells: seq<char>, cells': seq<char>, b: Buffer, c: string, h: string)
    requires Shows(cells, b) && b.inside && b.left > 0 && NUL !in c && h == Head(c, b.left - 1) && |cells'| == |cells|
    requires cells'[..|b.text|] == cells[..|b.text|] && cells'[|b.text|..|b.text| + |h|] == h && cells'[|b.text| + |h|] == NUL
    ensures Shows(cells', Put(b, c))
  {
    var t := b.text + h;
    assert cells'[..|t|] == cells'[..|b.text|] + cells'[|b.text|..|t|];
  }

  /** snprintf at the advanced pointer; with negative room nothing of it is inside the cells. */
  method Snprintf(buf: array<char>, ghost b: Buffer, left: int, c: string) returns (inside: bool, left': int)
    requires b.inside && b.left == left && Shows(buf[..], b) && NUL !in c
    modifies buf
    ensures inside == Put(b, c).inside
    ensures inside ==> left' == Put(b, c).left && Shows(buf[..], Put(b, c))
  {
    inside, left' := left >= 0, left - |c|;
    if left > 0 {
      ghost var before := buf[..];
      var pos, h := buf.Length - left, Head(c, left - 1);
      for i := 0 to |h|
        invariant buf[..pos] == before[..pos] && buf[pos..pos + i] == h[..i]
      {
        buf[pos + i] := h[i];
      }
      buf[pos + |h|] := NUL;
      assert h[..|h|] == h;
      PutShows(before, buf[..], b, c, h);
    }
  }

  lemma {:induction false} DigitsHaveNoNul(n: nat)
    ensures NUL !in Digits(n)
  {
    if n >= 10 {
      DigitsHaveNoNul(n / 10);
    }
  }

  lemma PrintHasNoNul(n: int)
    ensures NUL !in Print(n) + ":"
  {
    DigitsHaveNoNul(if n < 0 then -n else n);
  }

  lemma PutAllSnoc(b: Buffer, cs: seq<string>, c: string)
    ensures PutAll(b, cs + [c]) == Put(PutAll(b, cs), c)
  {
    assert (cs + [c])[..|cs|] == cs;
  }

  lemma {:induction false} PutAllConcat(b: Buffer, cs: seq<string>, ds: seq<string>)
    ensures PutAll(b, cs + ds) == PutAll(PutAll(b, cs), ds)
  {
    if ds == [] {
      assert cs + ds == cs;
    } else {
      var front, d := ds[..|ds| - 1], ds[|ds| - 1];
      PutAllConcat(b, cs, front);
      assert cs + ds == (cs + front) + [d];
      PutAllSnoc(b, cs + front, d);
    }
  }

  lemma NextPieces(n: int, m: map<int, Rule>, k: nat)
    ensures Pieces(n, Listed(m, k + 1)) == Pieces(n, Listed(m, k)) + Parts(Get(m, k))
  {
    var rs, r := Listed(m, k), Get(m, k);
    assert Listed(m, k + 1) == rs + [r] && (rs + [r])[..k] == rs;
    Associate([Print(n) + ":"], RulePieces(rs), Parts(r));
  }

  lemma PutNextRule(size: nat, n: int, m: map<int, Rule>, k: nat)
    ensures PutAll(Empty(size), Pieces(n, Listed(m, k + 1))) == PutAll(PutAll(Empty(size), Pieces(n, Listed(m, k))), Parts(Get(m, k)))
  {
    NextPieces(n, m, k);
    PutAllConcat(Empty(size), Pieces(n, Listed(m, k)), Parts(Get(m, k)));
  }

  lemma PutFirst(size: nat, n: int, m: map<int, Rule>)
    ensures PutAll(Empty(size), Pieces(n, Listed(m, 0))) == Put(Empty(size), Print(n) + ":")
  {
    assert Pieces(n, Listed(m, 0)) == [] + [Print(n) + ":"];
    PutAllSnoc(Empty(size), [], Print(n) + ":");
  }

  /** The program's view of a buffer state: nothing is known once a print has gone outside. */
  ghost predicate Tracks(cells: seq<char>, b: Buffer, inside: bool, left: int) {
    inside == b.inside && (inside ==> left == b.left && Shows(cells, b))
  }

  /** One more print, unless one has gone outside already. */
  method PrintNext(buf: array<char>, ghost b: Buffer, inside: bool, left: int, c: string) returns (inside': bool, left': int)
    requires Tracks(buf[..], b, inside, left) && NUL !in c
    modifies buf
    ensures Tracks(buf[..], Put(b, c), inside', left')
  {
    inside', left' := inside, left;
    if inside {
      inside', left' := Snprintf(buf, b, left, c);
    }
  }

  ghost predicate NoNuls(cs: seq<string>) { forall i :: 0 <= i < |cs| ==> NUL !in cs[i] }

  /** Several prints in a row. */
  method PrintAll(buf: array<char>, ghost b: Buffer, inside: bool, left: int, cs: seq<string>) returns (inside': bool, left': int)
    requires Tracks(buf[..], b, inside, left) && NoNuls(cs)
    modifies buf
    ensures Tracks(buf[..], PutAll(b, cs), inside', left')
  {
    inside', left' := inside, left;
    ghost var now := b;
    for i := 0 to |cs|
      invariant now == PutAll(b, cs[..i]) && Tracks(buf[..], now, inside', left')
    {
      assert cs[..i + 1] == cs[..i] + [cs[i]];
      PutAllSnoc(b, cs[..i], cs[i]);
      inside', left' := PrintNext(buf, now, inside', left', cs[i]);
      now := PutAll(b, cs[..i + 1]);
    }
    assert cs[..|cs|] == cs;
  }

  lemma PartsHaveNoNul(r: Rule)
    requires NUL !in r.str
    ensures NoNuls(Parts(r))
  {
    PrintHasNoNul(r.mode);
    PrintHasNoNul(r.item);
  }

  lemma {:induction false} RoomShrinks(b: Buffer, cs: seq<string>)
    ensures PutAll(b, cs).left <= b.left
  {
    if cs != [] {
      RoomShrinks(b, cs[..|cs| - 1]);
    }
  }

  /** One iteration of the print loop. */
  method PrintRule(buf: array<char>, ghost b: Buffer, inside: bool, left: int, r: Rule) returns (inside': bool, left': int)
    requires Tracks(buf[..], b, inside, left) && NUL !in r.str
    modifies buf
    ensures Tracks(buf[..], PutAll(b, Parts(r)), inside', left') && PutAll(b, Parts(r)).left <= b.left
  {
    var last := if r.str != "" then r.str + "$" else "%$";
    assert last == Normal(r).str + "$";
    PartsHaveNoNul(r);
    inside', left' := PrintAll(buf, b, inside, left, [Print(r.mode) + ":", Print(r.item) + ":", last]);
    RoomShrinks(b, Parts(r));
  }

  /** The buffer after the count and the first k rules. */
  function Printed(size: nat, n: int, m: map<int, Rule>, k: int): Buffer { PutAll(Empty(size), Pieces(n, Listed(m, k))) }

  /** The state of the print loop before rule k. */
  ghost predicate Printing(cells: seq<char>, n: int, m: map<int, Rule>, k: int, inside: bool, left: int) {
    Printed(|cells|, n, m, k).left < |cells| && Tracks(cells, Printed(|cells|, n, m, k), inside, left)
  }

  method PrintCount(buf: array<char>, n: int, m: map<int, Rule>) returns (inside: bool, left: int)
    modifies buf
    ensures Printing(buf[..], n, m, 0, inside, left)
  {
    PrintHasNoNul(n);
    PrintNotEmpty(n);
    inside, left := PrintNext(buf, Empty(buf.Length), true, buf.Length, Print(n) + ":");
    PutFirst(buf.Length, n, m);
  }

  method PrintNth(buf: array<char>, n: int, m: map<int, Rule>, k: nat, inside: bool, left: int) returns (k': nat, inside': bool, left': int)
    requires Printing(buf[..], n, m, k, inside, left) && NUL !in Get(m, k).str
    modifies buf
    ensures k' == k + 1 && Printing(buf[..], n, m, k', inside', left')
  {
    k' := k + 1;
    ghost var b := Printed(buf.Length, n, m, k);
    PutNextRule(buf.Length, n, m, k);
    inside', left' := PrintRule(buf, b, inside, left, Get(m, k));
  }

  method PrintConf(buf: array<char>, n: int, m: map<int, Rule>) returns (inside: bool, left: int)
    requires forall k :: 0 <= k < n ==> NUL !in Get(m, k).str
    modifies buf
    ensures Printing(buf[..], n, m, n, inside, left)
  {
    inside, left := PrintCount(buf, n, m);
    var k: nat := 0;
    while k < n
      invariant k == 0 || k <= n
      invariant Printing(buf[..], n, m, k, inside, left)
    {
      k, inside, left := PrintNth(buf, n, m, k, inside, left);
    }
    assert Listed(m, k) == Listed(m, n);
  }

  /** What the caller finds in the cells. */
  lemma SerializeEnds(cells: seq<char>, b: Buffer, n: int, m: map<int, Rule>)
    requires b == Printed(|cells|, n, m, n) && (b.inside ==> b.left < |cells| && Shows(cells, b))
    ensures b.inside ==> CString(cells) == b.text
    ensures n >= 1 ==>
              ((b.inside && Decode(CString(cells)) == Decoded(n, Normals(Listed(m, n))))
               <==> AllPlain(Listed(m, n)) && Fits(Listed(m, n), |cells|))
  {
    if b.inside { ShowsString(cells, b); }
    if n >= 1 { RoundTripExact(Listed(m, n), |cells|); }
  }

  class Conf {
    var numRules: int
    var rules: map<int, Rule>

    constructor ()
      ensures numRules == 0 && rules == map[]
    {
      numRules, rules := 0, map[];
    }

    /**
      Prints count and rules into the buffer. Once a print would go outside, what follows is no longer
      defined and nothing more is written.
     */
    method Serialize(buf: array<char>) returns (inside: bool)
      requires forall k :: 0 <= k < numRules ==> NUL !in Get(rules, k).str
      modifies buf
      ensures var b := Printed(buf.Length, numRules, rules, numRules);
              inside == b.inside && (inside ==> CString(buf[..]) == b.text)
      ensures numRules >= 1 ==>
                ((inside && Decode(CString(buf[..])) == Decoded(numRules, Normals(Listed(rules, numRules))))
                 <==> AllPlain(Listed(rules, numRules)) && Fits(Listed(rules, numRules), buf.Length))
    {
      var left;
      inside, left := PrintConf(buf, numRules, rules);
      SerializeEnds(buf[..], Printed(buf.Length, numRules, rules, numRules), numRules, rules);
    }

    /** Loads whatever the text holds; slots past the loaded rules keep their values. */
    method Deserialize(buf: string)
      modifies this
      ensures numRules == Decode(buf).count
      ensures rules == Store(old(rules), 0, Decode(buf).rules)
    {
      var n := Count(buf);
      if n == 0 {
        StoreOne(rules, DEFAULT_RULE);
        numRules, rules := 1, rules[0 := DEFAULT_RULE];
      } else {
        var rest := SkipTo(buf, ':');
        Load(rest, n);
      }
    }

    method Load(buf: string, n: int)
      requires n != 0
      modifies this
      ensures numRules == Outcome(n, ScanRules(ScanRule, buf, n)).count
      ensures rules == Store(old(rules), 0, Outcome(n, ScanRules(ScanRule, buf, n)).rules)
    {
      numRules := n;
      var k := ScanLoop(buf, n);
      if k < n {
        if n == 1 {
          StoreOne(rules, DEFAULT_RULE);
          rules := rules[k := DEFAULT_RULE];
        } else {
          numRules := k;
        }
      }
    }

    /** The rule loop of dt_collection_deserialize up to the first rule that does not scan. */
    method ScanLoop(buf: string, n: int) returns (k: nat)
      modifies this`rules
      ensures k == |ScanRules(ScanRule, buf, n)|
      ensures rules == Store(old(rules), 0, ScanRules(ScanRule, buf, n))
    {
      var rest := buf;
      ghost var m := n;
      ghost var left := ScanRules(ScanRule, rest, m);
      k := 0;
      while k < n && ScanRule(rest).Some?
        invariant k + m == n && left == ScanRules(ScanRule, rest, m)
        invariant k + |left| == |ScanRules(ScanRule, buf, n)|
        invariant Store(rules, k, left) == Store(old(rules), 0, ScanRules(ScanRule, buf, n))
        decreases m
      {
        ScanStep(ScanRule, rules, k, rest, m);
        rules := rules[k := ScanRule(rest).value];
        rest := SkipTo(rest, '$');
        k, m, left := k + 1, m - 1, left[1..];
      }
      assert left == [];
    }
  }
}
