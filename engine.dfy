/** The processing loop of `main` (rotate.cpp:136-177): each structure-file
    line that is not an atom line is copied; an atom line is read, every
    member entry of every group is compared with the atom by serial
    (`operator==`, rotate.cpp:87-89) and each equal entry applies that
    group's axis step once more, groups in load order and entries in list
    order, and the atom is written back. */
module Engine {
  import opened Wrappers
  import opened Record
  import opened Rotation
  import opened Selection

  /** `operator==` on atoms: equal serials, nothing else compared. */
  predicate Matches(member: Atom, at: Atom) {
    member.serial == at.serial
  }

  /** A selector matches exactly the atoms with its serial, and an atom
      matches the same entries before and after its coordinates change, so
      rotating it never changes which later entries it meets. */
  lemma MatchesBySerial(n: int, member: Atom, at: Atom, p: Point)
    ensures Matches(Selector(n), at) <==> at.serial == n
    ensures Matches(member, WithCoords(at, p)) <==> Matches(member, at)
  {
  }

  function Coords(at: Atom): Point {
    Point(at.x, at.y, at.z)
  }

  function WithCoords(at: Atom, p: Point): Atom {
    at.(x := p.x, y := p.y, z := p.z)
  }

  /** The step one equal entry of `g` applies; `cos` and `sin` stand for the
      C library functions. */
  function GroupStep(g: Group, cos: real -> real, sin: real -> real, p: Point): Point {
    Step(g.axis, cos(g.theta), sin(g.theta), p)
  }

  /** The inner loop: the entries of `g` in list order, starting from `p`. */
  function ApplyEntries(g: Group, entries: seq<Atom>, at: Atom,
                        cos: real -> real, sin: real -> real, p: Point): Point
  {
    if entries == [] then p
    else
      var q := ApplyEntries(g, entries[..|entries| - 1], at, cos, sin, p);
      if Matches(entries[|entries| - 1], at) then GroupStep(g, cos, sin, q) else q
  }

  /** The outer loop: the groups in load order, starting from `p`. */
  function ApplyGroups(groups: seq<Group>, at: Atom,
                       cos: real -> real, sin: real -> real, p: Point): Point
  {
    if groups == [] then p
    else
      var g := groups[|groups| - 1];
      ApplyEntries(g, g.atoms, at, cos, sin, ApplyGroups(groups[..|groups| - 1], at, cos, sin, p))
  }

  /** How many entries equal `at`. */
  function Count(entries: seq<Atom>, at: Atom): nat {
    if entries == [] then 0
    else Count(entries[..|entries| - 1], at) + if Matches(entries[|entries| - 1], at) then 1 else 0
  }

  /** `g`'s step applied `n` times. */
  function Repeat(g: Group, cos: real -> real, sin: real -> real, p: Point, n: nat): Point {
    if n == 0 then p else GroupStep(g, cos, sin, Repeat(g, cos, sin, p, n - 1))
  }

  /** Reference reading of the engine: every group, first to last, applies
      its step as many times as it lists the atom's serial, each to the
      coordinates the earlier groups left. */
  function Reference(groups: seq<Group>, at: Atom,
                     cos: real -> real, sin: real -> real, p: Point): Point
  {
    if groups == [] then p
    else
      var g := groups[0];
      Reference(groups[1..], at, cos, sin, Repeat(g, cos, sin, p, Count(g.atoms, at)))
  }

  /** The entries of a group apply its step once per equal entry, so a
      serial listed twice is rotated twice. */
  lemma {:induction false} EntriesRepeat(g: Group, entries: seq<Atom>, at: Atom,
                                         cos: real -> real, sin: real -> real, p: Point)
    ensures ApplyEntries(g, entries, at, cos, sin, p) == Repeat(g, cos, sin, p, Count(entries, at))
  {
    if entries != [] {
      EntriesRepeat(g, entries[..|entries| - 1], at, cos, sin, p);
    }
  }

  /** Groups compose by successive application: the later groups act on
      the coordinates the earlier ones produced. */
  lemma {:induction false} ApplyGroupsAppend(first: seq<Group>, second: seq<Group>, at: Atom,
                                             cos: real -> real, sin: real -> real, p: Point)
    ensures ApplyGroups(first + second, at, cos, sin, p)
         == ApplyGroups(second, at, cos, sin, ApplyGroups(first, at, cos, sin, p))
    decreases |second|
  {
    if second == [] {
      assert first + second == first;
    } else {
      var all := first + second;
      assert all[..|all| - 1] == first + second[..|second| - 1];
      assert all[|all| - 1] == second[|second| - 1];
      ApplyGroupsAppend(first, second[..|second| - 1], at, cos, sin, p);
    }
  }

  /** The nested loops compute the reference reading, for all inputs. */
  lemma {:induction false} ApplyGroupsIsReference(groups: seq<Group>, at: Atom,
                                                  cos: real -> real, sin: real -> real, p: Point)
    ensures ApplyGroups(groups, at, cos, sin, p) == Reference(groups, at, cos, sin, p)
    decreases |groups|
  {
    if groups != [] {
      var g := groups[0];
      var q := Repeat(g, cos, sin, p, Count(g.atoms, at));
      assert groups == [g] + groups[1..];
      ApplyGroupsAppend([g], groups[1..], at, cos, sin, p);
      assert [g][..0] == [];
      EntriesRepeat(g, g.atoms, at, cos, sin, p);
      assert ApplyGroups([g], at, cos, sin, p) == q;
      ApplyGroupsIsReference(groups[1..], at, cos, sin, q);
    }
  }

  /** An atom whose serial no group lists keeps its coordinates. */
  lemma {:induction false} ApplyGroupsUnmatched(groups: seq<Group>, at: Atom,
                                                cos: real -> real, sin: real -> real, p: Point)
    requires forall k, j :: 0 <= k < |groups| && 0 <= j < |groups[k].atoms| ==>
      groups[k].atoms[j].serial != at.serial
    ensures ApplyGroups(groups, at, cos, sin, p) == p
    decreases |groups|
  {
    if groups != [] {
      var g := groups[|groups| - 1];
      ApplyGroupsUnmatched(groups[..|groups| - 1], at, cos, sin, p);
      EntriesRepeat(g, g.atoms, at, cos, sin, p);
      CountNone(g.atoms, at);
    }
  }

  lemma {:induction false} CountNone(entries: seq<Atom>, at: Atom)
    requires forall j :: 0 <= j < |entries| ==> entries[j].serial != at.serial
    ensures Count(entries, at) == 0
  {
    if entries != [] {
      CountNone(entries[..|entries| - 1], at);
    }
  }

  /** Groups whose axis is none of 'x', 'y', 'z' (an upper-case letter, or
      the zero character of an incomplete trailing group) change nothing. */
  lemma {:induction false} ApplyGroupsOtherAxes(groups: seq<Group>, at: Atom,
                                                cos: real -> real, sin: real -> real, p: Point)
    requires forall k :: 0 <= k < |groups| ==>
      groups[k].axis != 'x' && groups[k].axis != 'y' && groups[k].axis != 'z'
    ensures ApplyGroups(groups, at, cos, sin, p) == p
    decreases |groups|
  {
    if groups != [] {
      var g := groups[|groups| - 1];
      ApplyGroupsOtherAxes(groups[..|groups| - 1], at, cos, sin, p);
      EntriesRepeat(g, g.atoms, at, cos, sin, p);
      RepeatOtherAxis(g, cos, sin, p, Count(g.atoms, at));
    }
  }

  lemma {:induction false} RepeatOtherAxis(g: Group, cos: real -> real, sin: real -> real, p: Point, n: nat)
    requires g.axis != 'x' && g.axis != 'y' && g.axis != 'z'
    ensures Repeat(g, cos, sin, p, n) == p
  {
    if n > 0 {
      RepeatOtherAxis(g, cos, sin, p, n - 1);
    }
  }

  /** A group rotating the atom by theta about y or z, followed by one
      rotating it by -theta about the same axis, leaves it where it was. */
  lemma UndoByOppositeGroup(axis: char, theta: real, at: Atom,
                            cos: real -> real, sin: real -> real, p: Point)
    requires axis == 'y' || axis == 'z'
    requires cos(theta) * cos(theta) + sin(theta) * sin(theta) == 1.0
    requires cos(-theta) == cos(theta) && sin(-theta) == -sin(theta)
    ensures ApplyGroups([Group([Selector(at.serial)], theta, axis),
                         Group([Selector(at.serial)], -theta, axis)], at, cos, sin, p) == p
  {
    var g1 := Group([Selector(at.serial)], theta, axis);
    var g2 := Group([Selector(at.serial)], -theta, axis);
    ApplyGroupsIsReference([g1, g2], at, cos, sin, p);
    assert [g1, g2][1..] == [g2];
    assert [g2][1..] == [];
    assert g1.atoms[..0] == [] && g2.atoms[..0] == [];
    assert Count(g1.atoms, at) == 1 && Count(g2.atoms, at) == 1;
    var q := GroupStep(g1, cos, sin, p);
    assert Repeat(g1, cos, sin, p, 1) == q;
    assert Repeat(g2, cos, sin, q, 1) == GroupStep(g2, cos, sin, q);
    assert Reference([g1, g2], at, cos, sin, p) == Reference([g2], at, cos, sin, q);
    assert Reference([g2], at, cos, sin, q) == GroupStep(g2, cos, sin, q);
    StepUndo(axis, cos(theta), sin(theta), p);
  }

  /** Serial 5 at (1, 0, 0), one group {5} about z by a quarter turn
      (cos 0, sin 1): the atom ends at (0, 1, 0). */
  lemma QuarterTurnAboutZ(theta: real, at: Atom, cos: real -> real, sin: real -> real)
    requires at.serial == 5 && Coords(at) == Point(1.0, 0.0, 0.0)
    requires cos(theta) == 0.0 && sin(theta) == 1.0
    ensures ApplyGroups([Group([Selector(5)], theta, 'z')], at, cos, sin, Coords(at))
         == Point(0.0, 1.0, 0.0)
  {
    var g := Group([Selector(5)], theta, 'z');
    var p := Coords(at);
    assert [g][..0] == [];
    assert g.atoms[..0] == [];
    assert ApplyGroups([g], at, cos, sin, p) == ApplyEntries(g, g.atoms, at, cos, sin, p);
    assert ApplyEntries(g, g.atoms, at, cos, sin, p) == GroupStep(g, cos, sin, p);
  }

  /** The body of the inner loop for an equal entry (rotate.cpp:147-170):
      the if / else-if chain on the axis, writing the new coordinates
      through the temporaries `cur_x`, `cur_y`, `cur_z`. */
  method RotateEntry(res: Group, curat: Atom, cos: real -> real, sin: real -> real)
    returns (next: Atom)
    ensures next == WithCoords(curat, GroupStep(res, cos, sin, Coords(curat)))
  {
    var c := cos(res.theta);
    var s := sin(res.theta);
    next := curat;
    var cur_x, cur_y, cur_z;
    if res.axis == 'x' {
      cur_x := next.x;
      cur_y := next.y * c - next.z * s;
      cur_z := -next.y * s + next.z * c;
      next := next.(x := cur_x, y := cur_y, z := cur_z);
    } else if res.axis == 'y' {
      cur_x := next.x * c + next.z * s;
      cur_y := next.y;
      cur_z := -next.x * s + next.z * c;
      next := next.(x := cur_x, y := cur_y, z := cur_z);
    } else if res.axis == 'z' {
      cur_x := next.x * c - next.y * s;
      cur_y := next.x * s + next.y * c;
      cur_z := next.z;
      next := next.(x := cur_x, y := cur_y, z := cur_z);
    }
    assert Coords(next) == Step(res.axis, c, s, Coords(curat));
  }

  /** The processing of one atom (rotate.cpp:142-174): the nested loops over
      the groups and their entries. */
  method ProcessAtom(movelist: seq<Group>, at: Atom, cos: real -> real, sin: real -> real)
    returns (curat: Atom)
    ensures curat == WithCoords(at, ApplyGroups(movelist, at, cos, sin, Coords(at)))
  {
    curat := at;
    var i := 0;
    while i < |movelist|
      invariant 0 <= i <= |movelist|
      invariant curat == WithCoords(at, ApplyGroups(movelist[..i], at, cos, sin, Coords(at)))
    {
      var res := movelist[i];
      ghost var start := Coords(curat);
      var j := 0;
      while j < |res.atoms|
        invariant 0 <= j <= |res.atoms|
        invariant curat == WithCoords(at, ApplyEntries(res, res.atoms[..j], at, cos, sin, start))
      {
        assert res.atoms[..j + 1][..j] == res.atoms[..j];
        if Matches(res.atoms[j], curat) {
          curat := RotateEntry(res, curat, cos, sin);
        }
        j := j + 1;
      }
      assert res.atoms[..j] == res.atoms;
      assert movelist[..i + 1][..i] == movelist[..i];
      i := i + 1;
    }
    assert movelist[..i] == movelist;
  }

  /** What the loop writes for one structure-file line, or the exception it
      stops with. */
  function RewriteLine(movelist: seq<Group>, line: string, cos: real -> real, sin: real -> real,
                       str2double: string -> real, fmt: real -> string): (r: Result<string, Error>)
    ensures !IsAtomLine(line) ==> r == Ok(line)
    ensures IsAtomLine(line) ==> (r.Ok? <==> |line| >= AfterStart)
  {
    if !IsAtomLine(line) then Ok(line)
    else
      match ReadAtom(line, str2double)
      case Err(e) => Err(e)
      case Ok(at) => Ok(Encode(WithCoords(at, ApplyGroups(movelist, at, cos, sin, Coords(at))), fmt))
  }

  /** An atom line of at least 54 characters comes out with columns [0,30)
      and [54,80) of the input, the rotated coordinates in [30,54), and
      nothing past column 80; if no group lists its serial, the coordinates
      written are the ones read. */
  lemma RewriteAtomLine(movelist: seq<Group>, line: string, cos: real -> real, sin: real -> real,
                        str2double: string -> real, fmt: real -> string)
    requires IsAtomLine(line) && |line| >= AfterStart
    requires forall v :: |fmt(v)| == FieldWidth
    ensures var at := ReadAtom(line, str2double).value;
      var q := ApplyGroups(movelist, at, cos, sin, Coords(at));
      var out := RewriteLine(movelist, line, cos, sin, str2double, fmt).value;
      && |out| == Min(80, |line|)
      && out[..30] == line[..30]
      && out[30..38] == fmt(q.x) && out[38..46] == fmt(q.y) && out[46..54] == fmt(q.z)
      && out[54..] == line[54..Min(80, |line|)]
      && ((forall k, j :: 0 <= k < |movelist| && 0 <= j < |movelist[k].atoms| ==>
             movelist[k].atoms[j].serial != at.serial)
          ==> q == Point(str2double(line[30..38]), str2double(line[38..46]), str2double(line[46..54])))
  {
    var at := ReadAtom(line, str2double).value;
    var q := ApplyGroups(movelist, at, cos, sin, Coords(at));
    EncodeKeepsColumns(line, str2double, fmt, q.x, q.y, q.z);
    if forall k, j :: 0 <= k < |movelist| && 0 <= j < |movelist[k].atoms| ==>
         movelist[k].atoms[j].serial != at.serial {
      ApplyGroupsUnmatched(movelist, at, cos, sin, Coords(at));
    }
  }

  /** The main loop over the structure file: one output line per input
      line, in order, until a short atom line makes `readatom` throw. */
  method Rewrite(movelist: seq<Group>, lines: seq<string>, cos: real -> real, sin: real -> real,
                 str2double: string -> real, fmt: real -> string)
    returns (out: seq<string>, failure: Option<Error>)
    ensures |out| <= |lines|
    ensures forall k :: 0 <= k < |out| ==>
      RewriteLine(movelist, lines[k], cos, sin, str2double, fmt) == Ok(out[k])
    ensures forall k :: 0 <= k < |out| && !IsAtomLine(lines[k]) ==> out[k] == lines[k]
    ensures failure.None? <==> |out| == |lines|
    ensures failure.Some? ==>
      RewriteLine(movelist, lines[|out|], cos, sin, str2double, fmt) == Err(failure.value)
  {
    out, failure := [], None;
    var n := 0;
    while n < |lines|
      invariant 0 <= n <= |lines| && |out| == n
      invariant forall k :: 0 <= k < n ==>
        RewriteLine(movelist, lines[k], cos, sin, str2double, fmt) == Ok(out[k])
    {
      var line := lines[n];
      if !IsAtomLine(line) {
        out := out + [line];
      } else {
        var r := ReadAtom(line, str2double);
        if r.Err? {
          failure := Some(r.error);
          return;
        }
        var curat := ProcessAtom(movelist, r.value, cos, sin);
        out := out + [Encode(curat, fmt)];
      }
      n := n + 1;
    }
  }
}
