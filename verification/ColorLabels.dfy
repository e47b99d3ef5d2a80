/**
  Colour labels of images and their undo records. The table holds (image, colour) rows under a unique
  index, so it is a set; a label mask is the set of its bits.
 */
module ColorLabels {

  type ImgId = int
  type Table = set<(ImgId, nat)>
  type Mask = set<nat>

  const NO_IMG: ImgId := 0
  const COLORS: nat := 5

  datatype Action = Set | Add | Toggle

  /** One image's masks before and after an action. */
  datatype Change = Change(img: ImgId, before: Mask, after: Mask)

  /** The table after an action and what was recorded for undo. */
  datatype Done = Done(rows: Table, changes: seq<Change>)

  // ---------------------------------------------------------------- specification

  /** Eight bits are kept of a mask. */
  function Byte(m: Mask): Mask { set c | c in m && c < 8 }

  function GetLabels(rows: Table, i: ImgId): Mask {
    if i > NO_IMG then set r | r in rows && r.0 == i && r.1 < 8 :: r.1 else {}
  }

  /** The rows of image i for the colours of m. */
  function Pairs(i: ImgId, m: Mask): Table { set c | c in m && c < COLORS :: (i, c) }

  /** _pop_undo_execute: insert the colours that appear, delete those that vanish. */
  function Execute(rows: Table, ch: Change): Table {
    if ch.img > NO_IMG then rows - Pairs(ch.img, ch.before - ch.after) + Pairs(ch.img, ch.after - ch.before) else rows
  }

  function After(action: Action, before: Mask, labels: Mask): Mask {
    match action
    case Set => Byte(labels)
    case Add => Byte(before + labels)
    case Toggle => if before * labels != {} then before - labels else Byte(before + labels)
  }

  function ChangeOf(rows: Table, i: ImgId, action: Action, labels: Mask): Change {
    var before := GetLabels(rows, i);
    Change(i, before, After(action, before, labels))
  }

  /** The main loop of _colorlabels_execute. */
  function Run(rows: Table, imgs: seq<ImgId>, action: Action, labels: Mask): (d: Done)
    ensures |d.changes| == |imgs|
    ensures forall k :: 0 <= k < |imgs| ==> d.changes[k].img == imgs[k]
    decreases |imgs|
  {
    if imgs == [] then Done(rows, [])
    else
      var ch := ChangeOf(rows, imgs[0], action, labels);
      var rest := Run(Execute(rows, ch), imgs[1..], action, labels);
      Done(rest.rows, [ch] + rest.changes)
  }

  predicate AllLabelled(rows: Table, imgs: seq<ImgId>, labels: Mask) {
    forall i <- imgs :: GetLabels(rows, i) * labels != {}
  }

  /** A toggle becomes an addition as soon as one image lacks the label. */
  function Effective(rows: Table, imgs: seq<ImgId>, action: Action, labels: Mask): Action {
    if action == Toggle && !AllLabelled(rows, imgs, labels) then Add else action
  }

  function Perform(rows: Table, imgs: seq<ImgId>, action: Action, labels: Mask): Done {
    Run(rows, imgs, Effective(rows, imgs, action, labels), labels)
  }

  /** dt_colorlabels_toggle_label_on_list: colour 5 clears. */
  function ToggleColor(rows: Table, imgs: seq<ImgId>, color: nat): Done {
    if color == 5 then Perform(rows, imgs, Set, {}) else Perform(rows, imgs, Toggle, {color})
  }

  function Replay(rows: Table, chs: seq<Change>): Table
    decreases |chs|
  {
    if chs == [] then rows else Replay(Execute(rows, chs[0]), chs[1..])
  }

  function Flip(ch: Change): Change { Change(ch.img, ch.after, ch.before) }

  function Flips(chs: seq<Change>): (r: seq<Change>)
    ensures |r| == |chs| && forall k :: 0 <= k < |chs| ==> r[k] == Flip(chs[k])
  {
    seq(|chs|, k requires 0 <= k < |chs| => Flip(chs[k]))
  }

  /** _pop_undo in both directions; the records are visited in list order either way. */
  function Redo(rows: Table, chs: seq<Change>): Table { Replay(rows, chs) }
  function Undo(rows: Table, chs: seq<Change>): Table { Replay(rows, Flips(chs)) }

  predicate Distinct(imgs: seq<ImgId>) { forall i, j :: 0 <= i < j < |imgs| ==> imgs[i] != imgs[j] }

  // ---------------------------------------------------------------- single rows

  /** Is row (j, c) touched by the change? */
  predicate Touches(ch: Change, j: ImgId, c: nat) {
    ch.img == j && j > NO_IMG && c < COLORS && (c in ch.before <==> c !in ch.after)
  }

  lemma ExecuteRow(rows: Table, ch: Change, j: ImgId, c: nat)
    ensures (j, c) in Execute(rows, ch) <==> if Touches(ch, j, c) then c in ch.after else (j, c) in rows
  {
  }

  ghost predicate DistinctChanges(chs: seq<Change>) { forall i, j :: 0 <= i < j < |chs| ==> chs[i].img != chs[j].img }

  lemma {:induction false} ReplayElsewhere(rows: Table, chs: seq<Change>, j: ImgId, c: nat)
    requires forall k :: 0 <= k < |chs| ==> !Touches(chs[k], j, c)
    ensures (j, c) in Replay(rows, chs) <==> (j, c) in rows
    decreases |chs|
  {
    if chs != [] {
      ExecuteRow(rows, chs[0], j, c);
      ReplayElsewhere(Execute(rows, chs[0]), chs[1..], j, c);
    }
  }

  /** With one change per image, the row ends as that change says. */
  lemma {:induction false} ReplayRow(rows: Table, chs: seq<Change>, k: nat, c: nat)
    requires DistinctChanges(chs) && k < |chs|
    ensures var j := chs[k].img;
            (j, c) in Replay(rows, chs) <==> if Touches(chs[k], j, c) then c in chs[k].after else (j, c) in rows
    decreases |chs|
  {
    var j := chs[k].img;
    var r := Execute(rows, chs[0]);
    ExecuteRow(rows, chs[0], j, c);
    if k == 0 {
      ReplayElsewhere(r, chs[1..], j, c);
    } else {
      ReplayRow(r, chs[1..], k - 1, c);
    }
  }

  lemma LabelIsRow(rows: Table, j: ImgId, c: nat)
    requires j > NO_IMG && c < 8
    ensures c in GetLabels(rows, j) <==> (j, c) in rows
  {
    if (j, c) in rows { assert (j, c).1 in GetLabels(rows, j); }
  }

  /** A change of another image is not seen. */
  lemma ForeignChange(rows: Table, ch: Change, i: ImgId)
    requires ch.img != i
    ensures GetLabels(Execute(rows, ch), i) == GetLabels(rows, i)
  {
    var r := Execute(rows, ch);
    forall c: nat | c < 8 && i > NO_IMG ensures c in GetLabels(r, i) <==> c in GetLabels(rows, i) {
      ExecuteRow(rows, ch, i, c);
      LabelIsRow(r, i, c);
      LabelIsRow(rows, i, c);
    }
  }

  // ---------------------------------------------------------------- what a run records

  /** The recorded changes lead from the old table to the new one. */
  lemma {:induction false} RunIsReplay(rows: Table, imgs: seq<ImgId>, action: Action, labels: Mask)
    ensures var d := Run(rows, imgs, action, labels); d.rows == Redo(rows, d.changes)
    decreases |imgs|
  {
    if imgs != [] {
      var ch := ChangeOf(rows, imgs[0], action, labels);
      var d := Run(rows, imgs, action, labels);
      RunIsReplay(Execute(rows, ch), imgs[1..], action, labels);
      assert d.changes[1..] == Run(Execute(rows, ch), imgs[1..], action, labels).changes;
    }
  }

  /** On distinct images every change is relative to the table before the run. */
  lemma {:induction false} RunChange(rows: Table, imgs: seq<ImgId>, action: Action, labels: Mask, k: nat)
    requires Distinct(imgs) && k < |imgs|
    ensures Run(rows, imgs, action, labels).changes[k] == ChangeOf(rows, imgs[k], action, labels)
    decreases |imgs|
  {
    if k > 0 {
      var ch := ChangeOf(rows, imgs[0], action, labels);
      RunChange(Execute(rows, ch), imgs[1..], action, labels, k - 1);
      ForeignChange(rows, ch, imgs[k]);
    }
  }

  lemma RunDistinct(rows: Table, imgs: seq<ImgId>, action: Action, labels: Mask)
    requires Distinct(imgs)
    ensures DistinctChanges(Run(rows, imgs, action, labels).changes)
    ensures DistinctChanges(Flips(Run(rows, imgs, action, labels).changes))
  {
  }

  /** The new row of a listed image. */
  lemma RunRow(rows: Table, imgs: seq<ImgId>, action: Action, labels: Mask, k: nat, c: nat)
    requires Distinct(imgs) && k < |imgs| && imgs[k] > NO_IMG && c < COLORS
    ensures (imgs[k], c) in Run(rows, imgs, action, labels).rows <==> c in After(action, GetLabels(rows, imgs[k]), labels)
  {
    RunIsReplay(rows, imgs, action, labels);
    RunDistinct(rows, imgs, action, labels);
    RunChange(rows, imgs, action, labels, k);
    ReplayRow(rows, Run(rows, imgs, action, labels).changes, k, c);
    LabelIsRow(rows, imgs[k], c);
  }

  /** Rows of other images, and colours beyond the five, stay. */
  lemma RunElsewhere(rows: Table, imgs: seq<ImgId>, action: Action, labels: Mask, j: ImgId, c: nat)
    requires j !in imgs || j <= NO_IMG || c >= COLORS
    ensures (j, c) in Run(rows, imgs, action, labels).rows <==> (j, c) in rows
  {
    var chs := Run(rows, imgs, action, labels).changes;
    RunIsReplay(rows, imgs, action, labels);
    forall k | 0 <= k < |chs| ensures !Touches(chs[k], j, c) { assert chs[k].img == imgs[k]; }
    ReplayElsewhere(rows, chs, j, c);
  }

  /** Setting leaves on every listed image exactly the given ones of the five labels, however often it is listed. */
  lemma {:induction false} SetLeaves(rows: Table, imgs: seq<ImgId>, labels: Mask, j: ImgId, c: nat)
    requires j in imgs && j > 0 && c < 5
    ensures (j, c) in Run(rows, imgs, Set, labels).rows <==> c in labels
    decreases |imgs|
  {
    var ch := ChangeOf(rows, imgs[0], Set, labels);
    var next, more := Execute(rows, ch), imgs[1..];
    if j in more {
      SetLeaves(next, more, labels, j, c);
    } else {
      RunElsewhere(next, more, Set, labels, j, c);
      ExecuteRow(rows, ch, j, c);
      LabelIsRow(rows, j, c);
    }
  }

  /** Adding leaves the given ones and those that were there. */
  lemma {:induction false} AddLeaves(rows: Table, imgs: seq<ImgId>, labels: Mask, j: ImgId, c: nat)
    requires j in imgs && j > 0 && c < 5
    ensures (j, c) in Run(rows, imgs, Add, labels).rows <==> (j, c) in rows || c in labels
    decreases |imgs|
  {
    var ch := ChangeOf(rows, imgs[0], Add, labels);
    var next, more := Execute(rows, ch), imgs[1..];
    ExecuteRow(rows, ch, j, c);
    LabelIsRow(rows, j, c);
    if j in more {
      AddLeaves(next, more, labels, j, c);
    } else {
      RunElsewhere(next, more, Add, labels, j, c);
    }
  }

  /** Colour 5 removes all five labels of every listed image. */
  lemma FiveClears(rows: Table, imgs: seq<ImgId>, j: ImgId, c: nat)
    requires j in imgs && j > 0 && c < 5
    ensures (j, c) !in ToggleColor(rows, imgs, 5).rows
  {
    SetLeaves(rows, imgs, {}, j, c);
  }

  // ---------------------------------------------------------------- undo

  lemma UndoListedRow(rows: Table, imgs: seq<ImgId>, action: Action, labels: Mask, k: nat, c: nat)
    requires Distinct(imgs) && k < |imgs| && imgs[k] > NO_IMG && c < COLORS
    ensures var d := Run(rows, imgs, action, labels);
            (imgs[k], c) in Undo(d.rows, d.changes) <==> (imgs[k], c) in rows
  {
    var d := Run(rows, imgs, action, labels);
    RunDistinct(rows, imgs, action, labels);
    RunChange(rows, imgs, action, labels, k);
    RunRow(rows, imgs, action, labels, k, c);
    ReplayRow(d.rows, Flips(d.changes), k, c);
    LabelIsRow(rows, imgs[k], c);
  }

  lemma UndoOtherRow(rows: Table, imgs: seq<ImgId>, action: Action, labels: Mask, j: ImgId, c: nat)
    requires j !in imgs || j <= NO_IMG || c >= COLORS
    ensures var d := Run(rows, imgs, action, labels);
            (j, c) in Undo(d.rows, d.changes) <==> (j, c) in rows
  {
    var d := Run(rows, imgs, action, labels);
    RunElsewhere(rows, imgs, action, labels, j, c);
    var chs := Flips(d.changes);
    forall k | 0 <= k < |chs| ensures !Touches(chs[k], j, c) { assert chs[k].img == imgs[k]; }
    ReplayElsewhere(d.rows, chs, j, c);
  }

  /** Undoing an action on distinct images restores the table; redoing reproduces it. */
  lemma UndoRestores(rows: Table, imgs: seq<ImgId>, action: Action, labels: Mask)
    requires Distinct(imgs)
    ensures var d := Perform(rows, imgs, action, labels);
            Undo(d.rows, d.changes) == rows && Redo(rows, d.changes) == d.rows
  {
    var a := Effective(rows, imgs, action, labels);
    var d := Run(rows, imgs, a, labels);
    RunIsReplay(rows, imgs, a, labels);
    forall r: (ImgId, nat) ensures r in Undo(d.rows, d.changes) <==> r in rows {
      if r.0 in imgs && r.0 > NO_IMG && r.1 < COLORS {
        var k :| 0 <= k < |imgs| && imgs[k] == r.0;
        UndoListedRow(rows, imgs, a, labels, k, r.1);
      } else {
        UndoOtherRow(rows, imgs, a, labels, r.0, r.1);
      }
    }
  }

  // ---------------------------------------------------------------- toggling

  /** The rows that put the colour on every listed image. */
  function Marks(imgs: seq<ImgId>, color: nat): Table { set i | i in imgs :: (i, color) }

  predicate AllValid(imgs: seq<ImgId>) { forall i <- imgs :: i > NO_IMG }

  lemma LabelledIsMarks(rows: Table, imgs: seq<ImgId>, color: nat)
    requires AllValid(imgs) && color < COLORS
    ensures AllLabelled(rows, imgs, {color}) <==> Marks(imgs, color) <= rows
  {
    forall i | i in imgs ensures GetLabels(rows, i) * {color} != {} <==> (i, color) in rows {
      LabelIsRow(rows, i, color);
      if color in GetLabels(rows, i) { assert color in GetLabels(rows, i) * {color}; }
    }
    if Marks(imgs, color) <= rows {
      forall i | i in imgs ensures (i, color) in rows { assert (i, color) in Marks(imgs, color); }
    }
  }

  lemma ToggleRow(rows: Table, imgs: seq<ImgId>, color: nat, k: nat, c: nat)
    requires Distinct(imgs) && AllValid(imgs) && color < COLORS && k < |imgs| && c < COLORS
    ensures (imgs[k], c) in ToggleColor(rows, imgs, color).rows
        <==> if c == color then !(Marks(imgs, color) <= rows) else (imgs[k], c) in rows
  {
    var a := Effective(rows, imgs, Toggle, {color});
    LabelledIsMarks(rows, imgs, color);
    assert imgs[k] in imgs;
    RunRow(rows, imgs, a, {color}, k, c);
    LabelIsRow(rows, imgs[k], c);
  }

  /** A toggle takes the label off all listed images if all had it, and otherwise puts it on all. */
  lemma ToggleIs(rows: Table, imgs: seq<ImgId>, color: nat)
    requires Distinct(imgs) && AllValid(imgs) && color < COLORS
    ensures ToggleColor(rows, imgs, color).rows
         == if Marks(imgs, color) <= rows then rows - Marks(imgs, color) else rows + Marks(imgs, color)
  {
    var t := ToggleColor(rows, imgs, color).rows;
    var m := Marks(imgs, color);
    var u := if m <= rows then rows - m else rows + m;
    forall r: (ImgId, nat) ensures r in t <==> r in u {
      if r.0 in imgs && r.1 < COLORS {
        var k :| 0 <= k < |imgs| && imgs[k] == r.0;
        ToggleRow(rows, imgs, color, k, r.1);
        assert r == (imgs[k], r.1);
        assert r in m <==> r.1 == color;
      } else {
        RunElsewhere(rows, imgs, Effective(rows, imgs, Toggle, {color}), {color}, r.0, r.1);
        assert r !in m;
      }
    }
  }

  /** Label on all or on none, and three toggles are one. */
  lemma ToggleThrice(rows: Table, imgs: seq<ImgId>, color: nat)
    requires Distinct(imgs) && AllValid(imgs) && color < COLORS
    ensures var one := ToggleColor(rows, imgs, color).rows;
            var m := Marks(imgs, color);
            && (m <= one || m !! one)
            && ToggleColor(ToggleColor(one, imgs, color).rows, imgs, color).rows == one
  {
    var m := Marks(imgs, color);
    var one := ToggleColor(rows, imgs, color).rows;
    var two := ToggleColor(one, imgs, color).rows;
    ToggleIs(rows, imgs, color);
    ToggleIs(one, imgs, color);
    ToggleIs(two, imgs, color);
    if imgs == [] {
      assert m == {};
    } else {
      assert (imgs[0], color) in m;
    }
  }

  // ---------------------------------------------------------------- repeated images

  function Count(imgs: seq<ImgId>, i: ImgId): (n: nat)
    ensures n > 0 <==> i in imgs
  {
    if imgs == [] then 0 else (if imgs[0] == i then 1 else 0) + Count(imgs[1..], i)
  }

  predicate Odd(n: nat) { n % 2 == 1 }

  lemma CountFirst(imgs: seq<ImgId>, i: ImgId)
    requires imgs != []
    ensures Odd(Count(imgs, i)) <==> (Odd(Count(imgs[1..], i)) <==> imgs[0] != i)
  {
  }

  lemma TailValid(imgs: seq<ImgId>)
    requires imgs != [] && AllValid(imgs)
    ensures imgs[0] > NO_IMG && AllValid(imgs[1..])
  {
    assert imgs[0] in imgs;
    forall i | i in imgs[1..] ensures i > NO_IMG { assert i in imgs; }
  }

  /** A toggled change touches its own colour only, and turns it round. */
  lemma ToggleChange(rows: Table, i: ImgId, color: nat, c: nat)
    requires i > NO_IMG && color < COLORS && c < COLORS
    ensures var ch := ChangeOf(rows, i, Toggle, {color});
            (c in ch.before <==> (i, c) in rows) && (Touches(ch, i, c) <==> c == color)
  {
    LabelIsRow(rows, i, c);
    LabelIsRow(rows, i, color);
    var before := GetLabels(rows, i);
    if color in before { assert color in before * {color}; } else { assert before * {color} == {}; }
  }

  /** Undo takes back the first change first. */
  lemma UndoFirst(x: Table, rows: Table, imgs: seq<ImgId>, action: Action, labels: Mask)
    requires imgs != []
    ensures var ch := ChangeOf(rows, imgs[0], action, labels);
            Undo(x, Run(rows, imgs, action, labels).changes)
            == Undo(Execute(x, Flip(ch)), Run(Execute(rows, ch), imgs[1..], action, labels).changes)
  {
    var ch := ChangeOf(rows, imgs[0], action, labels);
    var rest := Run(Execute(rows, ch), imgs[1..], action, labels).changes;
    assert Flips(Run(rows, imgs, action, labels).changes)[1..] == Flips(rest);
  }

  /** The label after one toggle of image j, and after taking it back in any table. */
  lemma ToggleOnce(x: Table, rows: Table, j: ImgId, color: nat, i: ImgId)
    requires j > NO_IMG && color < COLORS
    ensures var ch := ChangeOf(rows, j, Toggle, {color});
            && ((i, color) in Execute(rows, ch) <==> ((i, color) in rows <==> i != j))
            && (i == j ==> ((i, color) in Execute(x, Flip(ch)) <==> (i, color) in rows))
  {
    var ch := ChangeOf(rows, j, Toggle, {color});
    ToggleChange(rows, j, color, color);
    ExecuteRow(rows, ch, i, color);
    ExecuteRow(x, Flip(ch), i, color);
  }

  /** Undoing a toggle that met image i n times leaves its label as n - 1 toggles do, whatever x was. */
  lemma {:induction false} UndoToggleRow(x: Table, rows: Table, imgs: seq<ImgId>, color: nat, i: ImgId)
    requires AllValid(imgs) && color < COLORS && i in imgs
    ensures (i, color) in Undo(x, Run(rows, imgs, Toggle, {color}).changes)
        <==> ((i, color) in rows <==> Odd(Count(imgs, i)))
    decreases |imgs|
  {
    var ch := ChangeOf(rows, imgs[0], Toggle, {color});
    var next, more, x' := Execute(rows, ch), imgs[1..], Execute(x, Flip(ch));
    UndoFirst(x, rows, imgs, Toggle, {color});
    TailValid(imgs);
    CountFirst(imgs, i);
    ToggleOnce(x, rows, imgs[0], color, i);
    if i in more {
      UndoToggleRow(x', next, more, color, i);
    } else {
      UndoUnlisted(x', next, more, Toggle, {color}, i, color);
    }
  }

  lemma UndoUnlisted(x: Table, rows: Table, imgs: seq<ImgId>, action: Action, labels: Mask, j: ImgId, c: nat)
    requires j !in imgs || j <= NO_IMG || c >= COLORS
    ensures (j, c) in Undo(x, Run(rows, imgs, action, labels).changes) <==> (j, c) in x
  {
    var chs := Run(rows, imgs, action, labels).changes;
    forall k | 0 <= k < |chs| ensures !Touches(chs[k], j, c) { assert chs[k].img == imgs[k]; }
    UntouchedRow(x, chs, j, c);
  }

  lemma UntouchedRow(x: Table, chs: seq<Change>, i: ImgId, c: nat)
    requires forall k :: 0 <= k < |chs| ==> !Touches(chs[k], i, c)
    ensures (i, c) in Undo(x, chs) <==> (i, c) in x
  {
    forall k | 0 <= k < |chs| ensures !Touches(Flips(chs)[k], i, c) { assert !Touches(chs[k], i, c); }
    ReplayElsewhere(x, Flips(chs), i, c);
  }

  /** Does the action leave row (i, c) as it is? */
  predicate Stable(rows: Table, i: ImgId, c: nat, action: Action, labels: Mask) {
    (i, c) in rows <==> c in After(action, GetLabels(rows, i), labels)
  }

  /** Setting and adding are settled after the first time. */
  lemma SettledAfterOne(rows: Table, i: ImgId, j: ImgId, c: nat, action: Action, labels: Mask)
    requires action != Toggle && j > NO_IMG && c < COLORS
    requires i == j || Stable(rows, j, c, action, labels)
    ensures Stable(Execute(rows, ChangeOf(rows, i, action, labels)), j, c, action, labels)
  {
    var ch := ChangeOf(rows, i, action, labels);
    ExecuteRow(rows, ch, j, c);
    LabelIsRow(rows, j, c);
    LabelIsRow(Execute(rows, ch), j, c);
  }

  lemma {:induction false} SettledUntouched(rows: Table, imgs: seq<ImgId>, j: ImgId, c: nat, action: Action, labels: Mask, k: nat)
    requires action != Toggle && j > NO_IMG && c < COLORS && Stable(rows, j, c, action, labels) && k < |imgs|
    ensures !Touches(Run(rows, imgs, action, labels).changes[k], j, c)
    decreases |imgs|
  {
    var ch := ChangeOf(rows, imgs[0], action, labels);
    LabelIsRow(rows, j, c);
    if k > 0 {
      SettledAfterOne(rows, imgs[0], j, c, action, labels);
      SettledUntouched(Execute(rows, ch), imgs[1..], j, c, action, labels, k - 1);
    }
  }

  /** Undoing a set or an addition gives back the row, repeated images or not. */
  lemma {:induction false} UndoSettledRow(x: Table, rows: Table, imgs: seq<ImgId>, j: ImgId, c: nat, action: Action, labels: Mask)
    requires action != Toggle && j > NO_IMG && c < COLORS
    requires (j, c) in x <==> (j, c) in Run(rows, imgs, action, labels).rows
    ensures (j, c) in Undo(x, Run(rows, imgs, action, labels).changes) <==> (j, c) in rows
    decreases |imgs|
  {
    if imgs != [] {
      var ch := ChangeOf(rows, imgs[0], action, labels);
      var next, more := Execute(rows, ch), imgs[1..];
      var rest := Run(next, more, action, labels);
      var x' := Execute(x, Flip(ch));
      UndoFirst(x, rows, imgs, action, labels);
      ExecuteRow(rows, ch, j, c);
      ExecuteRow(x, Flip(ch), j, c);
      LabelIsRow(rows, j, c);
      if imgs[0] == j {
        SettledAfterOne(rows, j, j, c, action, labels);
        forall k | 0 <= k < |more| ensures !Touches(rest.changes[k], j, c) {
          SettledUntouched(next, more, j, c, action, labels, k);
        }
        UntouchedRow(x', rest.changes, j, c);
        RunIsReplay(next, more, action, labels);
        ReplayElsewhere(next, rest.changes, j, c);
      } else {
        UndoSettledRow(x', next, more, j, c, action, labels);
      }
    }
  }

  /** A toggle leaves the other colours alone, and so does its undo. */
  lemma {:induction false} UndoToggleOther(x: Table, rows: Table, imgs: seq<ImgId>, color: nat, i: ImgId, c: nat)
    requires AllValid(imgs) && color < COLORS && c != color
    ensures (i, c) in Undo(x, Run(rows, imgs, Toggle, {color}).changes) <==> (i, c) in x
    ensures (i, c) in Run(rows, imgs, Toggle, {color}).rows <==> (i, c) in rows
    decreases |imgs|
  {
    if imgs != [] {
      var ch := ChangeOf(rows, imgs[0], Toggle, {color});
      UndoFirst(x, rows, imgs, Toggle, {color});
      TailValid(imgs);
      if c < COLORS { ToggleChange(rows, imgs[0], color, c); }
      ExecuteRow(rows, ch, i, c);
      ExecuteRow(x, Flip(ch), i, c);
      UndoToggleOther(Execute(x, Flip(ch)), Execute(rows, ch), imgs[1..], color, i, c);
    }
  }

  /** Setting and adding are undone on every list. */
  lemma UndoSettled(rows: Table, imgs: seq<ImgId>, action: Action, labels: Mask)
    requires action != Toggle
    ensures var d := Run(rows, imgs, action, labels); Undo(d.rows, d.changes) == rows
  {
    var d := Run(rows, imgs, action, labels);
    forall r: (ImgId, nat) ensures r in Undo(d.rows, d.changes) <==> r in rows {
      if r.0 > NO_IMG && r.1 < COLORS {
        UndoSettledRow(d.rows, rows, imgs, r.0, r.1, action, labels);
      } else {
        UndoOtherRow(rows, imgs, action, labels, r.0, r.1);
      }
    }
  }

  /** What undoing a toggle of labelled images gives back: the label, on those listed an odd number of times. */
  lemma UndoToggled(rows: Table, imgs: seq<ImgId>, color: nat)
    requires AllValid(imgs) && color < COLORS && Marks(imgs, color) <= rows
    ensures var d := Run(rows, imgs, Toggle, {color});
            Undo(d.rows, d.changes) == rows - set i | i in imgs && !Odd(Count(imgs, i)) :: (i, color)
  {
    var d := Run(rows, imgs, Toggle, {color});
    var lost := set i | i in imgs && !Odd(Count(imgs, i)) :: (i, color);
    forall r: (ImgId, nat) ensures r in Undo(d.rows, d.changes) <==> r in rows - lost {
      if r.1 != color {
        UndoToggleOther(d.rows, rows, imgs, color, r.0, r.1);
      } else if r.0 in imgs {
        assert r in Marks(imgs, color);
        UndoToggleRow(d.rows, rows, imgs, color, r.0);
        assert r in lost <==> !Odd(Count(imgs, r.0));
      } else {
        UndoOtherRow(rows, imgs, Toggle, {color}, r.0, r.1);
      }
    }
  }

  /** A toggle of a colour beyond the five changes no row, and neither does its undo. */
  lemma {:induction false} UntouchedByToggle(x: Table, rows: Table, imgs: seq<ImgId>, color: nat, j: ImgId, c: nat)
    requires color >= COLORS
    ensures (j, c) in Undo(x, Run(rows, imgs, Toggle, {color}).changes) <==> (j, c) in x
    ensures (j, c) in Run(rows, imgs, Toggle, {color}).rows <==> (j, c) in rows
    decreases |imgs|
  {
    if imgs != [] {
      var ch := ChangeOf(rows, imgs[0], Toggle, {color});
      UndoFirst(x, rows, imgs, Toggle, {color});
      assert c < COLORS ==> (c in ch.before <==> c in ch.after);
      ExecuteRow(rows, ch, j, c);
      ExecuteRow(x, Flip(ch), j, c);
      UntouchedByToggle(Execute(x, Flip(ch)), Execute(rows, ch), imgs[1..], color, j, c);
    }
  }

  lemma UndoNoColor(rows: Table, imgs: seq<ImgId>, color: nat)
    requires color >= COLORS
    ensures var d := Run(rows, imgs, Toggle, {color}); Undo(d.rows, d.changes) == rows
  {
    var d := Run(rows, imgs, Toggle, {color});
    forall r: (ImgId, nat) ensures r in Undo(d.rows, d.changes) <==> r in rows {
      UntouchedByToggle(d.rows, rows, imgs, color, r.0, r.1);
    }
  }

  /** The valid case of the five colours. */
  lemma UndoToggleValid(rows: Table, imgs: seq<ImgId>, color: nat)
    requires AllValid(imgs) && color < COLORS
    ensures var d := ToggleColor(rows, imgs, color);
            Undo(d.rows, d.changes) == rows
            <==> !(Marks(imgs, color) <= rows) || forall i <- imgs :: Odd(Count(imgs, i))
  {
    LabelledIsMarks(rows, imgs, color);
    if Marks(imgs, color) <= rows {
      UndoToggled(rows, imgs, color);
      forall i | i in imgs ensures (i, color) in rows { assert (i, color) in Marks(imgs, color); }
      if !forall i <- imgs :: Odd(Count(imgs, i)) {
        var i :| i in imgs && !Odd(Count(imgs, i));
        assert (i, color) in set i | i in imgs && !Odd(Count(imgs, i)) :: (i, color);
      }
    } else {
      UndoSettled(rows, imgs, Add, {color});
    }
  }

  /**
    On every list, undoing a toggle or a clear restores the table exactly if the colour is none of the five,
    an image is invalid or lacked the label, or every image is listed an odd number of times.
   */
  lemma UndoToggleExact(rows: Table, imgs: seq<ImgId>, color: nat)
    ensures var d := ToggleColor(rows, imgs, color);
            Undo(d.rows, d.changes) == rows
            <==> (color >= COLORS || !AllValid(imgs) || !(Marks(imgs, color) <= rows)
                  || forall i <- imgs :: Odd(Count(imgs, i)))
  {
    if color == 5 {
      UndoSettled(rows, imgs, Set, {});
    } else if !AllLabelled(rows, imgs, {color}) {
      UndoSettled(rows, imgs, Add, {color});
      if AllValid(imgs) && color < COLORS { UndoToggleValid(rows, imgs, color); }
    } else if color >= COLORS {
      UndoNoColor(rows, imgs, color);
    } else {
      assert AllValid(imgs);
      UndoToggleValid(rows, imgs, color);
    }
  }

  /** An image listed twice loses its label when the toggle is undone. */
  lemma RepeatedImageLosesLabel()
    ensures var d := ToggleColor({(1, 0)}, [1, 1], 0); Undo(d.rows, d.changes) != {(1, 0)}
  {
    UndoToggleExact({(1, 0)}, [1, 1], 0);
    assert Count([1, 1], 1) == 2 by { assert [1, 1][1..] == [1]; assert Count([1], 1) == 1; }
    assert Marks([1, 1], 0) <= {(1, 0)};
    assert 1 in [1, 1];
  }
}
