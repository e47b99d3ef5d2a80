/** Colour labels together with the undo and redo lists: the label table over whole sessions. */
module LabelUndo {
  import opened ColorLabels

  /** One recorded group is the change list of one action; the last element is the next to undo or redo. */
  datatype Session = Session(rows: Table, undo: seq<seq<Change>>, redo: seq<seq<Change>>)

  datatype Command =
    | SetLabels(imgs: seq<ImgId>, labels: Mask, clear: bool)
    | ToggleLabel(imgs: seq<ImgId>, color: nat)
    | UndoOne
    | RedoOne

  function Last<T>(s: seq<T>): T
    requires s != []
  {
    s[|s| - 1]
  }

  function Front<T>(s: seq<T>): seq<T>
    requires s != []
  {
    s[..|s| - 1]
  }

  /** A new record empties the redo list. */
  function Record(s: Session, d: Done): Session { Session(d.rows, s.undo + [d.changes], []) }

  function Step(s: Session, c: Command): Session {
    match c
    case SetLabels(imgs, labels, clear) =>
      if imgs == [] then s else Record(s, Perform(s.rows, imgs, if clear then Set else Add, labels))
    case ToggleLabel(imgs, color) => Record(s, ToggleColor(s.rows, imgs, color))
    case UndoOne =>
      if s.undo == [] then s
      else Session(Undo(s.rows, Last(s.undo)), Front(s.undo), s.redo + [Last(s.undo)])
    case RedoOne =>
      if s.redo == [] then s
      else Session(Redo(s.rows, Last(s.redo)), s.undo + [Last(s.redo)], Front(s.redo))
  }

  function Steps(s: Session, cs: seq<Command>): Session
    decreases |cs|
  {
    if cs == [] then s else Steps(Step(s, cs[0]), cs[1..])
  }

  predicate DistinctImages(c: Command) {
    match c
    case SetLabels(imgs, _, _) => Distinct(imgs)
    case ToggleLabel(imgs, _) => Distinct(imgs)
    case _ => true
  }

  /** Take back everything recorded, latest first. */
  function UndoAll(rows: Table, undo: seq<seq<Change>>): Table
    decreases |undo|
  {
    if undo == [] then rows else UndoAll(Undo(rows, Last(undo)), Front(undo))
  }

  /** Every recorded group, once undone, can be redone to the same table. */
  ghost predicate Linked(rows: Table, undo: seq<seq<Change>>)
    decreases |undo|
  {
    undo == [] ||
    (var before := Undo(rows, Last(undo));
     Redo(before, Last(undo)) == rows && Linked(before, Front(undo)))
  }

  /** And every undone group, once redone, can be undone again. */
  ghost predicate Pending(rows: Table, redo: seq<seq<Change>>)
    decreases |redo|
  {
    redo == [] ||
    (var after := Redo(rows, Last(redo));
     Undo(after, Last(redo)) == rows && Pending(after, Front(redo)))
  }

  ghost predicate Inv(base: Table, s: Session) {
    UndoAll(s.rows, s.undo) == base && Linked(s.rows, s.undo) && Pending(s.rows, s.redo)
  }

  lemma RecordKeepsInv(base: Table, s: Session, d: Done)
    requires Inv(base, s) && Undo(d.rows, d.changes) == s.rows && Redo(s.rows, d.changes) == d.rows
    ensures Inv(base, Record(s, d))
  {
    var u := s.undo + [d.changes];
    assert Last(u) == d.changes && Front(u) == s.undo;
  }

  lemma UndoKeepsInv(base: Table, s: Session)
    requires Inv(base, s) && s.undo != []
    ensures Inv(base, Step(s, UndoOne))
    ensures Step(Step(s, UndoOne), RedoOne) == s
  {
    var u, r := Last(s.undo), s.redo + [Last(s.undo)];
    assert Last(r) == u && Front(r) == s.redo;
    assert Front(s.undo) + [u] == s.undo;
  }

  lemma RedoKeepsInv(base: Table, s: Session)
    requires Inv(base, s) && s.redo != []
    ensures Inv(base, Step(s, RedoOne))
    ensures Step(Step(s, RedoOne), UndoOne) == s
  {
    var r, u := Last(s.redo), s.undo + [Last(s.redo)];
    assert Last(u) == r && Front(u) == s.undo;
    assert Front(s.redo) + [r] == s.redo;
  }

  lemma StepKeepsInv(base: Table, s: Session, c: Command)
    requires Inv(base, s) && DistinctImages(c)
    ensures Inv(base, Step(s, c))
  {
    match c
    case SetLabels(imgs, labels, clear) =>
      if imgs != [] {
        var a := if clear then Set else Add;
        UndoRestores(s.rows, imgs, a, labels);
        RecordKeepsInv(base, s, Perform(s.rows, imgs, a, labels));
      }
    case ToggleLabel(imgs, color) =>
      UndoRestores(s.rows, imgs, Set, {});
      UndoRestores(s.rows, imgs, Toggle, {color});
      RecordKeepsInv(base, s, ToggleColor(s.rows, imgs, color));
    case UndoOne => if s.undo != [] { UndoKeepsInv(base, s); }
    case RedoOne => if s.redo != [] { RedoKeepsInv(base, s); }
  }

  /** In every session on distinct images, undoing all that is recorded gives back the first table. */
  lemma {:induction false} SessionUndoes(base: Table, s: Session, cs: seq<Command>)
    requires Inv(base, s) && forall c <- cs :: DistinctImages(c)
    ensures Inv(base, Steps(s, cs)) && UndoAll(Steps(s, cs).rows, Steps(s, cs).undo) == base
    decreases |cs|
  {
    if cs != [] {
      assert cs[0] in cs;
      StepKeepsInv(base, s, cs[0]);
      forall c | c in cs[1..] ensures DistinctImages(c) { assert c in cs; }
      SessionUndoes(base, Step(s, cs[0]), cs[1..]);
    }
  }

  lemma FreshInv(rows: Table)
    ensures Inv(rows, Session(rows, [], []))
  {
  }

  /** The same from a table nothing has been recorded for. */
  lemma FreshSessionUndoes(rows: Table, cs: seq<Command>)
    requires forall c <- cs :: DistinctImages(c)
    ensures var s := Steps(Session(rows, [], []), cs); UndoAll(s.rows, s.undo) == rows
  {
    FreshInv(rows);
    SessionUndoes(rows, Session(rows, [], []), cs);
  }

  function Repeat(c: Command, n: nat): seq<Command> { if n == 0 then [] else [c] + Repeat(c, n - 1) }

  /** Any number of undos followed by as many redos is no change at all. */
  lemma {:induction false} UndosThenRedos(base: Table, s: Session, n: nat)
    requires Inv(base, s) && n <= |s.undo|
    ensures Steps(Steps(s, Repeat(UndoOne, n)), Repeat(RedoOne, n)) == s
    decreases n
  {
    if n > 0 {
      var s' := Step(s, UndoOne);
      UndoKeepsInv(base, s);
      UndosThenRedos(base, s', n - 1);
      assert Repeat(UndoOne, n)[1..] == Repeat(UndoOne, n - 1);
      OneMore(Steps(s', Repeat(UndoOne, n - 1)), RedoOne, n - 1);
    }
  }

  /** The same command n + 1 times: the last one apart. */
  lemma {:induction false} OneMore(s: Session, c: Command, n: nat)
    ensures Steps(s, Repeat(c, n + 1)) == Step(Steps(s, Repeat(c, n)), c)
    decreases n
  {
    assert Repeat(c, n + 1)[1..] == Repeat(c, n);
    if n > 0 {
      assert Repeat(c, n)[1..] == Repeat(c, n - 1);
      OneMore(Step(s, c), c, n - 1);
    }
  }

  // ---------------------------------------------------------------- in place

  /** What is left of a run after its image k. */
  lemma RunNext(rows: Table, imgs: seq<ImgId>, k: nat, a: Action, labels: Mask) returns (rest: Done)
    requires k < |imgs|
    ensures var ch := ChangeOf(rows, imgs[k], a, labels);
            && rest == Run(Execute(rows, ch), imgs[k + 1..], a, labels)
            && Run(rows, imgs[k..], a, labels) == Done(rest.rows, [ch] + rest.changes)
  {
    assert imgs[k..][1..] == imgs[k + 1..];
    rest := Run(Execute(rows, ChangeOf(rows, imgs[k], a, labels)), imgs[k + 1..], a, labels);
  }

  class Labels {
    var rows: Table
    var undo: seq<seq<Change>>
    var redo: seq<seq<Change>>

    constructor ()
      ensures rows == {} && undo == [] && redo == []
    {
      rows, undo, redo := {}, [], [];
    }

    ghost function View(): Session
      reads this
    {
      Session(rows, undo, redo)
    }

    /** _pop_undo_execute, colour by colour. */
    method PopUndoExecute(ch: Change)
      modifies this`rows
      ensures rows == Execute(old(rows), ch)
    {
      if ch.img <= NO_IMG {
        return;
      }
      for color := 0 to COLORS
        invariant forall j: ImgId, c: nat :: (j, c) in rows
                   <==> (if Touches(ch, j, c) && c < color then c in ch.after else (j, c) in old(rows))
      {
        if color in ch.after {
          if color !in ch.before {
            rows := rows + {(ch.img, color)};
          }
        } else if color in ch.before {
          rows := rows - {(ch.img, color)};
        }
      }
      forall r: (ImgId, nat) ensures r in rows <==> r in Execute(old(rows), ch) {
        ExecuteRow(old(rows), ch, r.0, r.1);
        assert r == (r.0, r.1);
      }
    }

    /** _pop_undo over one group, in list order for undo and redo alike. */
    method PopUndo(chs: seq<Change>, undoing: bool)
      modifies this`rows
      ensures rows == if undoing then Undo(old(rows), chs) else Redo(old(rows), chs)
    {
      ghost var all := if undoing then Flips(chs) else chs;
      assert all[0..] == all;
      for k := 0 to |chs|
        invariant Replay(rows, all[k..]) == Replay(old(rows), all)
      {
        assert all[k..][1..] == all[k + 1..];
        PopUndoExecute(if undoing then Flip(chs[k]) else chs[k]);
      }
    }

    /** The first loop of _colorlabels_execute. */
    method Settle(imgs: seq<ImgId>, action: Action, labels: Mask) returns (a: Action)
      ensures a == Effective(rows, imgs, action, labels)
    {
      a := action;
      if action == Toggle {
        var k := 0;
        while k < |imgs| && a == Toggle
          invariant 0 <= k <= |imgs|
          invariant a == Toggle ==> forall j :: 0 <= j < k ==> GetLabels(rows, imgs[j]) * labels != {}
          invariant a != Toggle ==> a == Add && !AllLabelled(rows, imgs, labels)
          decreases |imgs| - k, a == Toggle
        {
          if GetLabels(rows, imgs[k]) * labels == {} {
            assert imgs[k] in imgs;
            a := Add;
          } else {
            k := k + 1;
          }
        }
      }
    }

    /** _colorlabels_execute. */
    method ExecuteAction(imgs: seq<ImgId>, labels: Mask, action: Action) returns (changes: seq<Change>)
      modifies this`rows
      ensures Done(rows, changes) == Perform(old(rows), imgs, action, labels)
    {
      var a := Settle(imgs, action, labels);
      ghost var all := Run(rows, imgs, a, labels);
      ghost var left := all;
      changes := [];
      assert imgs[0..] == imgs;
      for k := 0 to |imgs|
        invariant left == Run(rows, imgs[k..], a, labels)
        invariant all == Done(left.rows, changes + left.changes)
      {
        var before := GetLabels(rows, imgs[k]);
        var ch := Change(imgs[k], before, After(a, before, labels));
        left := RunNext(rows, imgs, k, a, labels);
        changes := changes + [ch];
        PopUndoExecute(ch);
      }
    }

    /** dt_colorlabels_set_labels; without undo nothing is recorded. */
    method Assign(imgs: seq<ImgId>, labels: Mask, clear: bool, undoOn: bool)
      modifies this
      ensures undoOn ==> View() == Step(old(View()), SetLabels(imgs, labels, clear))
      ensures !undoOn ==> View() == old(View()).(rows := Step(old(View()), SetLabels(imgs, labels, clear)).rows)
    {
      if imgs != [] {
        var changes := ExecuteAction(imgs, labels, if clear then Set else Add);
        if undoOn {
          undo, redo := undo + [changes], [];
        }
      }
    }

    /** dt_colorlabels_toggle_label_on_list. */
    method ToggleOnList(imgs: seq<ImgId>, color: nat, undoOn: bool)
      modifies this
      ensures undoOn ==> View() == Step(old(View()), ToggleLabel(imgs, color))
      ensures !undoOn ==> View() == old(View()).(rows := Step(old(View()), ToggleLabel(imgs, color)).rows)
    {
      var changes;
      if color == 5 {
        changes := ExecuteAction(imgs, {}, Set);
      } else {
        changes := ExecuteAction(imgs, {color}, Toggle);
      }
      if undoOn {
        undo, redo := undo + [changes], [];
      }
    }

    /** One step of the undo or redo list. */
    method Travel(undoing: bool)
      modifies this
      ensures View() == Step(old(View()), if undoing then UndoOne else RedoOne)
    {
      if undoing && undo != [] {
        var group := Last(undo);
        PopUndo(group, true);
        undo, redo := Front(undo), redo + [group];
      } else if !undoing && redo != [] {
        var group := Last(redo);
        PopUndo(group, false);
        undo, redo := undo + [group], Front(redo);
      }
    }
  }
}
