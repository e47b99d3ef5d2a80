/**
  The list of recent collections: saving moves the current one to the front, over numbered slots that
  are compacted and shifted in place.
 */
module History {

  /** A slot's text and the scroll position stored with it. */
  datatype Slot = Slot(text: string, pos: int)

  // ---------------------------------------------------------------- specification

  /** The slots with another text, in order. */
  function Keep(h: seq<Slot>, b: string): (r: seq<Slot>)
    ensures |r| <= |h|
  {
    if h == [] then []
    else Keep(h[..|h| - 1], b) + if h[|h| - 1].text == b then [] else [h[|h| - 1]]
  }

  /** The kept slots moved up; the freed ones are blank but hold on to their position number. */
  function Compact(h: seq<Slot>, b: string): (r: seq<Slot>)
    ensures |r| == |h|
  {
    var k := Keep(h, b);
    seq(|h|, i requires 0 <= i < |h| => if i < |k| then k[i] else Slot("", h[i].pos))
  }

  /** The whole of dt_collection_history_save over the slots it looks at. */
  function Saved(h: seq<Slot>, b: string): (r: seq<Slot>)
    requires h != []
    ensures |r| == |h|
  {
    if h[0].text == b then h
    else [Slot(b, h[0].pos)] + Compact(h, b)[..|h| - 1]
  }

  /** Each kept collection keeps its own scroll position. */
  lemma {:induction false} KeepIsFilter(h: seq<Slot>, b: string)
    ensures forall s :: s in Keep(h, b) <==> s in h && s.text != b
  {
    if h != [] {
      KeepIsFilter(h[..|h| - 1], b);
      assert h == h[..|h| - 1] + [h[|h| - 1]];
    }
  }

  lemma {:induction false} KeepLoses(h: seq<Slot>, b: string)
    ensures (exists i :: 0 <= i < |h| && h[i].text == b) ==> |Keep(h, b)| < |h|
  {
    if h != [] {
      var m := |h| - 1;
      KeepLoses(h[..m], b);
      if h[m].text != b && exists i :: 0 <= i < |h| && h[i].text == b {
        var i :| 0 <= i < |h| && h[i].text == b;
        assert h[..m][i].text == b;
      }
    }
  }

  lemma KeptIsSaved(h: seq<Slot>, b: string, p: int)
    requires h != [] && h[0].text != b && 0 <= p < |Keep(h, b)| && p < |h| - 1
    ensures Keep(h, b)[p] in Saved(h, b)
  {
    assert Saved(h, b)[p + 1] == Keep(h, b)[p];
  }

  /** Every entry but the last is kept. */
  lemma SavedKeeps(h: seq<Slot>, b: string, i: int)
    requires h != [] && 0 <= i < |h| - 1 && h[i].text != b
    ensures h[i] in Saved(h, b)
  {
    if h[0].text != b {
      var front := h[..|h| - 1];
      KeepIsFilter(front, b);
      assert front[i] == h[i];
      var p :| 0 <= p < |Keep(front, b)| && Keep(front, b)[p] == h[i];
      KeptIsSaved(h, b, p);
    }
  }

  /** And so is the last if the saved text was there before. */
  lemma SavedKeepsLast(h: seq<Slot>, b: string)
    requires h != [] && h[|h| - 1].text != b && exists j :: 0 <= j < |h| && h[j].text == b
    ensures h[|h| - 1] in Saved(h, b)
  {
    if h[0].text != b {
      KeepIsFilter(h, b);
      KeepLoses(h, b);
      var p :| 0 <= p < |Keep(h, b)| && Keep(h, b)[p] == h[|h| - 1];
      KeptIsSaved(h, b, p);
    }
  }

  /** What is behind the front is an old entry with its own position, or blank. */
  lemma SavedOnlyOld(h: seq<Slot>, b: string, i: int)
    requires h != [] && h[0].text != b && 1 <= i < |h|
    ensures Saved(h, b)[i].text == "" || (Saved(h, b)[i] in h && Saved(h, b)[i].text != b)
  {
    KeepIsFilter(h, b);
    assert Saved(h, b)[i] == Compact(h, b)[i - 1];
  }

  // ---------------------------------------------------------------- in place

  ghost predicate Compacting(s: seq<Slot>, h: seq<Slot>, b: string, i: nat, move: nat) {
    && |s| == |h| && i <= |h| && move <= i
    && |Keep(h[..i], b)| == i - move
    && (forall j :: 0 <= j < i - move ==> s[j] == Keep(h[..i], b)[j])
    && (forall j :: i - move <= j < i ==> s[j] == Slot("", h[j].pos))
    && (forall j :: i <= j < |h| ==> s[j] == h[j])
  }

  /** One slot of the compaction. */
  method CompactSlot(slots: array<Slot>, ghost h: seq<Slot>, n: nat, b: string, i: nat, move: nat) returns (i': nat, move': nat)
    requires i < n <= slots.Length && Compacting(slots[..n], h, b, i, move)
    modifies slots
    ensures i' == i + 1 && move' <= i' && Compacting(slots[..n], h, b, i', move')
    ensures slots[n..] == old(slots[n..])
  {
    i', move' := i + 1, move;
    assert h[..i + 1][..i] == h[..i];
    assert slots[i] == slots[..n][i] == h[i];
    var s := slots[i].text;
    if s == b {
      move' := move + 1;
      slots[i] := slots[i].(text := "");
    } else if move > 0 {
      slots[i] := slots[i].(text := "");
      slots[i - move] := Slot(s, slots[i].pos);
    }
  }

  method CompactSlots(slots: array<Slot>, n: nat, b: string)
    requires 1 <= n <= slots.Length && slots[0].text != b
    modifies slots
    ensures slots[..n] == Compact(old(slots[..n]), b)
    ensures slots[n..] == old(slots[n..])
  {
    ghost var h := slots[..n];
    var i: nat, move: nat := 1, 0;
    assert Keep(h[..1], b) == [h[0]] by { assert h[..1][..0] == []; }
    while i < n
      invariant i <= n && Compacting(slots[..n], h, b, i, move)
      invariant slots[n..] == old(slots[n..])
    {
      i, move := CompactSlot(slots, h, n, b, i, move);
    }
    assert h[..n] == h;
  }

  method ShiftSlots(slots: array<Slot>, n: nat)
    requires 1 <= n <= slots.Length
    modifies slots
    ensures slots[..n] == [old(slots[0])] + old(slots[..n - 1])
    ensures slots[n..] == old(slots[n..])
  {
    var i := n - 2;
    while i >= 0
      invariant -1 <= i <= n - 2
      invariant forall j :: 0 <= j <= i + 1 ==> slots[j] == old(slots[j])
      invariant forall j :: i + 1 < j < n ==> slots[j] == old(slots[j - 1])
      invariant slots[n..] == old(slots[n..])
    {
      slots[i + 1] := slots[i];
      i := i - 1;
    }
  }

  /** Shift, then put the current collection in front; the position number of slot 0 stays. */
  method PushFront(slots: array<Slot>, n: nat, b: string)
    requires 1 <= n <= slots.Length
    modifies slots
    ensures slots[..n] == [Slot(b, old(slots[..n])[0].pos)] + old(slots[..n])[..n - 1]
    ensures slots[n..] == old(slots[n..])
  {
    ShiftSlots(slots, n);
    assert slots[0] == slots[..n][0];
    slots[0] := slots[0].(text := b);
  }

  method MoveFront(slots: array<Slot>, n: nat, b: string)
    requires 1 <= n <= slots.Length && slots[0].text != b
    modifies slots
    ensures slots[..n] == Saved(old(slots[..n]), b)
    ensures slots[n..] == old(slots[n..])
  {
    KeepsHead(slots[..n], b);
    CompactSlots(slots, n, b);
    PushFront(slots, n, b);
  }

  /** dt_collection_history_save, with nbmax slots to keep (slot 0 is used whatever nbmax is). */
  method Save(slots: array<Slot>, nbmax: int, buf: string)
    requires slots.Length >= 1 && nbmax <= slots.Length
    modifies slots
    ensures var n := if nbmax < 1 then 1 else nbmax;
            && slots[..n] == Saved(old(slots[..n]), buf) && slots[n..] == old(slots[n..])
            && slots[0].text == buf
            && (forall i :: 0 <= i < n - 1 && old(slots[i]).text != buf ==> old(slots[i]) in slots[..n])
  {
    ghost var n := if nbmax < 1 then 1 else nbmax;
    ghost var h := slots[..n];
    forall i | 0 <= i < n - 1 && h[i].text != buf ensures h[i] in Saved(h, buf) { SavedKeeps(h, buf, i); }
    if slots[0].text != buf {
      MoveFront(slots, if nbmax < 1 then 1 else nbmax, buf);
    }
  }

  lemma {:induction false} KeepsHead(h: seq<Slot>, b: string)
    requires h != [] && h[0].text != b
    ensures Keep(h, b) != [] && Keep(h, b)[0] == h[0] && Compact(h, b)[0] == h[0]
  {
    if |h| > 1 {
      KeepsHead(h[..|h| - 1], b);
    } else {
      assert h[..0] == [];
    }
  }

  // ---------------------------------------------------------------- the texts alone

  function Texts(h: seq<Slot>): (r: seq<string>)
    ensures |r| == |h| && forall i :: 0 <= i < |h| ==> r[i] == h[i].text
  {
    seq(|h|, i requires 0 <= i < |h| => h[i].text)
  }

  function Others(l: seq<string>, b: string): (r: seq<string>)
    ensures |r| <= |l|
  {
    if l == [] then []
    else Others(l[..|l| - 1], b) + if l[|l| - 1] == b then [] else [l[|l| - 1]]
  }

  lemma {:induction false} OthersMember(l: seq<string>, b: string, x: string)
    ensures x in Others(l, b) <==> x in l && x != b
  {
    if l != [] {
      var front, last := l[..|l| - 1], l[|l| - 1];
      OthersMember(front, b, x);
      assert l == front + [last];
    }
  }

  /** The first n elements, filled up with blanks. */
  function Pad(l: seq<string>, n: nat): (r: seq<string>)
    ensures |r| == n
  {
    seq(n, i requires 0 <= i < n => if i < |l| then l[i] else "")
  }

  function MoveToFront(l: seq<string>, b: string): (r: seq<string>)
    requires l != []
    ensures |r| == |l|
  {
    if l[0] == b then l else Pad([b] + Others(l, b), |l|)
  }

  lemma {:induction false} KeepTexts(h: seq<Slot>, b: string)
    ensures Texts(Keep(h, b)) == Others(Texts(h), b)
  {
    if h != [] {
      var m := |h| - 1;
      KeepTexts(h[..m], b);
      assert Texts(h)[..m] == Texts(h[..m]);
    }
  }

  lemma SavedTexts(h: seq<Slot>, b: string)
    requires h != []
    ensures Texts(Saved(h, b)) == MoveToFront(Texts(h), b)
  {
    if h[0].text != b {
      var k, o := Keep(h, b), Others(Texts(h), b);
      KeepTexts(h, b);
      assert |k| == |o|;
      forall i | 0 <= i < |h| ensures Saved(h, b)[i].text == Pad([b] + o, |h|)[i] {
        if 0 < i < |k| + 1 { assert o[i - 1] == k[i - 1].text; }
      }
    }
  }

  // ---------------------------------------------------------------- every run

  function Run(l: seq<string>, saves: seq<string>): (r: seq<string>)
    requires l != []
    ensures |r| == |l|
  {
    if saves == [] then l else MoveToFront(Run(l, saves[..|saves| - 1]), saves[|saves| - 1])
  }

  /** The saved texts without repetition, the latest first. */
  function Recent(saves: seq<string>): seq<string> {
    if saves == [] then []
    else var b := saves[|saves| - 1]; [b] + Others(Recent(saves[..|saves| - 1]), b)
  }

  /** When was x saved last? -1 if never. */
  function LastUse(saves: seq<string>, x: string): (t: int)
    ensures -1 <= t < |saves|
    ensures t >= 0 ==> saves[t] == x
    ensures forall i :: t < i < |saves| ==> saves[i] != x
  {
    if saves == [] then -1
    else if saves[|saves| - 1] == x then |saves| - 1
    else LastUse(saves[..|saves| - 1], x)
  }

  ghost predicate ByLastUse(l: seq<string>, saves: seq<string>) {
    forall i, j :: 0 <= i < j < |l| ==> LastUse(saves, l[i]) > LastUse(saves, l[j])
  }

  ghost predicate Distinct(l: seq<string>) { forall i, j :: 0 <= i < j < |l| ==> l[i] != l[j] }

  /** Dropping one text keeps the order of the others. */
  lemma {:induction false} OthersOrder(l: seq<string>, b: string, saves: seq<string>)
    requires ByLastUse(l, saves)
    ensures ByLastUse(Others(l, b), saves)
  {
    if l != [] {
      var m := |l| - 1;
      OthersOrder(l[..m], b, saves);
      var o := Others(l[..m], b);
      forall i | 0 <= i < |o| ensures LastUse(saves, o[i]) > LastUse(saves, l[m]) {
        OthersMember(l[..m], b, o[i]);
        var p :| 0 <= p < m && l[p] == o[i];
      }
    }
  }

  /** Saving b makes it the latest and leaves the last use of the others. */
  lemma OrderStep(o: seq<string>, before: seq<string>, b: string)
    requires ByLastUse(o, before) && b !in o
    ensures ByLastUse([b] + o, before + [b])
  {
    var saves, l := before + [b], [b] + o;
    assert saves[..|before|] == before;
    forall i, j | 0 <= i < j < |l| ensures LastUse(saves, l[i]) > LastUse(saves, l[j]) {
      assert l[j] == o[j - 1];
      if i > 0 { assert l[i] == o[i - 1]; }
    }
  }

  /** Recent is ordered by last use. */
  lemma {:induction false} RecentByLastUse(saves: seq<string>)
    ensures ByLastUse(Recent(saves), saves) && Distinct(Recent(saves))
  {
    if saves != [] {
      var m := |saves| - 1;
      var before, b := saves[..m], saves[m];
      RecentByLastUse(before);
      OthersOrder(Recent(before), b, before);
      OthersMember(Recent(before), b, b);
      OrderStep(Others(Recent(before), b), before, b);
      assert before + [b] == saves;
    }
  }

  /** Recent holds exactly the saved texts. */
  lemma {:induction false} RecentHolds(saves: seq<string>, x: string)
    ensures x in Recent(saves) <==> x in saves
  {
    if saves != [] {
      var m := |saves| - 1;
      RecentHolds(saves[..m], x);
      OthersMember(Recent(saves[..m]), saves[m], x);
      assert saves == saves[..m] + [saves[m]];
    }
  }

  lemma OthersSnoc(l: seq<string>, x: string, b: string)
    ensures Others(l + [x], b) == Others(l, b) + if x == b then [] else [x]
  {
    assert (l + [x])[..|l|] == l;
  }

  lemma {:induction false} OthersConcat(l: seq<string>, m: seq<string>, b: string)
    ensures Others(l + m, b) == Others(l, b) + Others(m, b)
  {
    if m == [] {
      assert l + m == l;
    } else {
      var front, x := m[..|m| - 1], m[|m| - 1];
      OthersConcat(l, front, b);
      assert l + m == (l + front) + [x];
      OthersSnoc(l + front, x, b);
    }
  }

  lemma {:induction false} OthersAbsent(l: seq<string>, b: string)
    requires b !in l
    ensures Others(l, b) == l
  {
    if l != [] {
      var front, last := l[..|l| - 1], l[|l| - 1];
      OthersAbsent(front, b);
      assert l == front + [last];
      OthersSnoc(front, last, b);
    }
  }

  /** At most one element of a distinct list goes. */
  lemma {:induction false} OthersLength(l: seq<string>, b: string)
    requires Distinct(l)
    ensures |Others(l, b)| >= |l| - 1
  {
    if l != [] {
      var m := |l| - 1;
      if l[m] == b { OthersAbsent(l[..m], b); } else { OthersLength(l[..m], b); }
    }
  }

  lemma OthersAlone(b: string)
    ensures Others([b], b) == []
  {
    assert [b][..0] == [];
  }

  lemma OthersOfTail(l: seq<string>, b: string)
    requires Distinct(l) && l != [] && l[0] == b
    ensures [b] + Others(l, b) == l
  {
    var rest := l[1..];
    assert l == [b] + rest;
    OthersConcat([b], rest, b);
    OthersAlone(b);
    OthersAbsent(rest, b);
  }

  /** A list longer than the slots: the cut off part does not matter. */
  lemma FrontOfLong(r: seq<string>, n: nat, b: string)
    requires Distinct(r) && n <= |r|
    ensures Pad([b] + Others(Pad(r, n), b), n) == Pad([b] + Others(r, b), n)
  {
    assert Pad(r, n) == r[..n] && r == r[..n] + r[n..];
    OthersConcat(r[..n], r[n..], b);
    OthersLength(r[..n], b);
  }

  /** A shorter list: the blanks stay behind it. */
  lemma FrontOfShort(r: seq<string>, n: nat, b: string)
    requires n > |r| && b != ""
    ensures Pad([b] + Others(Pad(r, n), b), n) == Pad([b] + Others(r, b), n)
  {
    var blanks := seq(n - |r|, _ => "");
    assert Pad(r, n) == r + blanks;
    OthersConcat(r, blanks, b);
    OthersAbsent(blanks, b);
  }

  lemma FrontStep(r: seq<string>, n: nat, b: string)
    requires n >= 1 && Distinct(r) && b != ""
    ensures MoveToFront(Pad(r, n), b) == Pad([b] + Others(r, b), n)
  {
    if Pad(r, n)[0] == b {
      OthersOfTail(r, b);
    } else if n <= |r| {
      FrontOfLong(r, n, b);
    } else {
      FrontOfShort(r, n, b);
    }
  }

  /**
    After any run of saves into n blank slots the history is the n most recently saved texts, each once,
    latest first, followed by blanks.
   */
  lemma {:induction false} HistoryIsRecent(n: nat, saves: seq<string>)
    requires n >= 1 && "" !in saves
    ensures Run(Pad([], n), saves) == Pad(Recent(saves), n)
  {
    if saves != [] {
      var m := |saves| - 1;
      HistoryIsRecent(n, saves[..m]);
      RecentByLastUse(saves[..m]);
      FrontStep(Recent(saves[..m]), n, saves[m]);
    }
  }

  /** Any run of saves on the slots themselves. */
  function SaveAll(h: seq<Slot>, saves: seq<string>): (r: seq<Slot>)
    requires h != []
    ensures |r| == |h|
  {
    if saves == [] then h else Saved(SaveAll(h, saves[..|saves| - 1]), saves[|saves| - 1])
  }

  lemma {:induction false} SaveAllTexts(h: seq<Slot>, saves: seq<string>)
    requires h != []
    ensures Texts(SaveAll(h, saves)) == Run(Texts(h), saves)
  {
    if saves != [] {
      var m := |saves| - 1;
      SaveAllTexts(h, saves[..m]);
      SavedTexts(SaveAll(h, saves[..m]), saves[m]);
    }
  }

  /** The same for slots that start out blank, whatever their position numbers. */
  lemma SlotsAreRecent(h: seq<Slot>, saves: seq<string>)
    requires h != [] && "" !in saves && forall i :: 0 <= i < |h| ==> h[i].text == ""
    ensures Texts(SaveAll(h, saves)) == Pad(Recent(saves), |h|)
  {
    SaveAllTexts(h, saves);
    assert Texts(h) == Pad([], |h|);
    HistoryIsRecent(|h|, saves);
  }

  /** Saving the same collection twice is saving it once. */
  lemma SaveTwice(h: seq<Slot>, b: string)
    requires h != []
    ensures Saved(Saved(h, b), b) == Saved(h, b) && Saved(h, b)[0].text == b
  {
  }
}
