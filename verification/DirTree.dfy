/**
 The directory tree of src/sysfile.c: inodes with link counts, and directories whose slots name them. The
 invariant says that link counts are exact and that the live directories form a tree; a lemma for each
 system call shows that its changes keep it.
 */
module DirTree {
  import opened Names
  import opened Directory

  const ROOTINO: nat := 1

  datatype Kind = Dir | File | Dev
  datatype Inode = Inode(kind: Kind, nlink: int, slots: Slots)

  /** The allocated inodes. */
  type Inodes = map<nat, Inode>

  predicate IsDir(m: Inodes, d: nat) { d in m && m[d].kind == Dir }

  /** A directory that was not removed; a removed one may live on while it is open. */
  predicate Live(m: Inodes, d: nat) { IsDir(m, d) && m[d].nlink > 0 }

  /** Slot s of live directory d names inode i; slot 0 is "." and does not count as a link. */
  predicate Entry(m: Inodes, d: nat, s: nat, i: nat) {
    Live(m, d) && 1 <= s < |m[d].slots| && m[d].slots[s].inum == i
  }

  ghost function Named(m: Inodes, i: nat): set<(nat, nat)> {
    set d, s: nat | d in m && s < |m[d].slots| && Entry(m, d, s, i) :: (d, s)
  }

  /** Where each live directory stands: its distance from the root, and its slot in its parent. */
  datatype Shape = Shape(depth: map<nat, nat>, place: map<nat, nat>)

  // ------------------------------------------------------------ invariant

  /** Slots 0 and 1 are "." and "..". */
  ghost predicate DotsAt(m: Inodes, d: nat) {
    IsDir(m, d) ==>
      var e := m[d].slots;
      && d != 0 && |e| >= 2 && Distinct(e)
      && e[0].inum == d && Key(e[0].name) == Key(".")
      && e[1].inum != 0 && Key(e[1].name) == Key("..")
  }

  function Parent(m: Inodes, d: nat): nat {
    if d in m && |m[d].slots| >= 2 then m[d].slots[1].inum else 0
  }

  /** A live directory names allocated inodes only; a removed one has nothing but its dots. */
  predicate ClosedAt(m: Inodes, d: nat, s: nat) {
    IsDir(m, d) && s < |m[d].slots| && m[d].slots[s].inum != 0 ==>
      if m[d].nlink > 0 then m[d].slots[s].inum in m else s < 2
  }

  /** ".." leads to a live directory nearer to the root, and there back again. */
  predicate UpAt(m: Inodes, t: Shape, d: nat) {
    Live(m, d) ==>
      && d in t.depth && Live(m, Parent(m, d))
      && (d == ROOTINO ==> Parent(m, d) == ROOTINO)
      && (d != ROOTINO ==>
            && d in t.place && t.place[d] >= 2 && Entry(m, Parent(m, d), t.place[d], d)
            && Parent(m, d) in t.depth && t.depth[Parent(m, d)] < t.depth[d])
  }

  /** A directory is entered in its own parent only, and once. */
  predicate DownAt(m: Inodes, t: Shape, p: nat, s: nat) {
    Live(m, p) && 2 <= s < |m[p].slots| && IsDir(m, m[p].slots[s].inum) ==>
      var e := m[p].slots[s].inum;
      e != ROOTINO && Live(m, e) && Parent(m, e) == p && e in t.place && t.place[e] == s
  }

  ghost predicate CountAt(m: Inodes, i: nat) {
    i in m ==> i != 0 && m[i].nlink == |Named(m, i)|
  }

  ghost predicate Dots(m: Inodes) { forall d: nat :: DotsAt(m, d) }
  ghost predicate Closed(m: Inodes) { forall d: nat, s: nat :: ClosedAt(m, d, s) }
  ghost predicate Up(m: Inodes, t: Shape) { Live(m, ROOTINO) && forall d: nat :: UpAt(m, t, d) }
  ghost predicate Down(m: Inodes, t: Shape) { forall p: nat, s: nat :: DownAt(m, t, p, s) }
  ghost predicate Counts(m: Inodes) { forall i: nat :: CountAt(m, i) }

  ghost predicate Inv(m: Inodes, t: Shape) {
    Dots(m) && Closed(m) && Up(m, t) && Down(m, t) && Counts(m)
  }

  // ------------------------------------------------------------ counting

  lemma {:induction false} NamedSame(m: Inodes, m': Inodes, i: nat)
    requires forall d, s: nat :: Entry(m', d, s, i) <==> Entry(m, d, s, i)
    ensures |Named(m', i)| == |Named(m, i)|
  {
    assert Named(m', i) == Named(m, i);
  }

  lemma {:induction false} NamedPlus(m: Inodes, m': Inodes, i: nat, d0: nat, s0: nat)
    requires !Entry(m, d0, s0, i)
    requires forall d, s: nat :: Entry(m', d, s, i) <==> Entry(m, d, s, i) || (d == d0 && s == s0)
    ensures |Named(m', i)| == |Named(m, i)| + 1
  {
    assert Named(m', i) == Named(m, i) + {(d0, s0)};
  }

  lemma {:induction false} NamedMinus(m: Inodes, m': Inodes, i: nat, d0: nat, s0: nat)
    requires Entry(m, d0, s0, i)
    requires forall d, s: nat :: Entry(m', d, s, i) <==> Entry(m, d, s, i) && !(d == d0 && s == s0)
    ensures |Named(m', i)| == |Named(m, i)| - 1
  {
    assert Named(m, i) == Named(m', i) + {(d0, s0)};
  }

  lemma {:induction false} NamedAny(m: Inodes, i: nat, d: nat, s: nat)
    requires Entry(m, d, s, i)
    ensures |Named(m, i)| >= 1
  {
    assert (d, s) in Named(m, i);
  }

  lemma {:induction false} NamedTwo(m: Inodes, i: nat, d: nat, s: nat, e: nat, r: nat)
    requires Entry(m, d, s, i) && Entry(m, e, r, i) && (d != e || s != r)
    ensures |Named(m, i)| >= 2
  {
    assert {(d, s), (e, r)} <= Named(m, i);
    Subset({(d, s), (e, r)}, Named(m, i));
  }

  lemma {:induction false} Subset(a: set<(nat, nat)>, b: set<(nat, nat)>)
    requires a <= b
    ensures |a| <= |b|
    decreases |a|
  {
    if a != {} {
      var x :| x in a;
      Subset(a - {x}, b - {x});
    }
  }

  lemma {:induction false} NamedOne(m: Inodes, i: nat, d0: nat, s0: nat)
    requires Entry(m, d0, s0, i) && forall d, s: nat | Entry(m, d, s, i) :: d == d0 && s == s0
    ensures |Named(m, i)| == 1
  {
    assert Named(m, i) == {(d0, s0)};
  }

  lemma {:induction false} NamedNone(m: Inodes, i: nat)
    requires forall d, s: nat :: !Entry(m, d, s, i)
    ensures |Named(m, i)| == 0
  {
    assert Named(m, i) == {};
  }

  // ------------------------------------------------------------ the changes

  /** Inode i gets one more link, and directory p a slot for it. */
  function Added(m: Inodes, p: nat, s: nat, name: string, i: nat): Inodes
    requires p in m && i in m && s <= |m[p].slots|
  {
    var m1 := m[i := m[i].(nlink := m[i].nlink + 1)];
    m1[p := m1[p].(slots := Written(m1[p].slots, s, Dirent(i, name)))]
  }

  /** Slot s of directory p is freed, with one link of its inode, and if that is a directory one of p. */
  function Dropped(m: Inodes, p: nat, s: nat): Inodes
    requires p in m && s < |m[p].slots| && m[p].slots[s].inum in m
  {
    var i := m[p].slots[s].inum;
    var less := if m[i].kind == Dir then 1 else 0;
    var m1 := m[p := m[p].(slots := m[p].slots[s := Dirent(0, "")], nlink := m[p].nlink - less)];
    m1[i := m1[i].(nlink := m1[i].nlink - 1)]
  }

  /** A new file or device, not linked yet. */
  function Born(m: Inodes, i: nat, kind: Kind): Inodes {
    m[i := Inode(kind, 0, [])]
  }

  /** A new directory, entered in slot s of p, whose ".." is one more link to p. */
  function Grown(m: Inodes, p: nat, s: nat, name: string, i: nat, dots: Slots): Inodes
    requires p in m && s <= |m[p].slots|
  {
    m[i := Inode(Dir, 1, dots)][p := m[p].(nlink := m[p].nlink + 1, slots := Written(m[p].slots, s, Dirent(i, name)))]
  }

  // ------------------------------------------------------------ link

  /** A link to a file: the slot is new and i is not a directory. */
  ghost predicate Linkable(m: Inodes, p: nat, s: nat, name: string, i: nat) {
    && IsDir(m, p) && i in m && m[i].kind != Dir && i != 0
    && 2 <= s <= |m[p].slots| && !Used(m[p].slots, s) && !HasName(m[p].slots, Key(name))
  }

  lemma {:induction false} AddedEntry(m: Inodes, p: nat, s: nat, name: string, i: nat, d: nat, r: nat, x: nat)
    requires Live(m, p) && Linkable(m, p, s, name, i) && x != 0
    ensures Entry(Added(m, p, s, name, i), d, r, x) <==> Entry(m, d, r, x) || (d == p && r == s && x == i)
  {
  }

  lemma {:induction false} AddedCount(m: Inodes, p: nat, s: nat, name: string, i: nat, x: nat)
    requires Live(m, p) && Linkable(m, p, s, name, i) && CountAt(m, x)
    ensures CountAt(Added(m, p, s, name, i), x)
  {
    var m' := Added(m, p, s, name, i);
    if x in m' {
      forall d, r: nat
        ensures Entry(m', d, r, x) <==> Entry(m, d, r, x) || (d == p && r == s && x == i)
      {
        AddedEntry(m, p, s, name, i, d, r, x);
      }
      hide Named, Entry;
      if x == i {
        NamedPlus(m, m', x, p, s) by { assert !Entry(m, p, s, x); }
      } else {
        NamedSame(m, m', x);
      }
    }
  }

  lemma {:induction false} AddedUp(m: Inodes, t: Shape, p: nat, s: nat, name: string, i: nat, d: nat)
    requires Live(m, p) && Linkable(m, p, s, name, i) && UpAt(m, t, d) && d != 0
    ensures UpAt(Added(m, p, s, name, i), t, d)
  {
    if Live(m, d) && d != ROOTINO {
      AddedEntry(m, p, s, name, i, Parent(m, d), t.place[d], d);
    }
  }

  lemma {:induction false} AddedDots(m: Inodes, p: nat, s: nat, name: string, i: nat, d: nat)
    requires Linkable(m, p, s, name, i) && DotsAt(m, d)
    ensures DotsAt(Added(m, p, s, name, i), d)
  {
    hide Key;
    var m' := Added(m, p, s, name, i);
    if d == p {
      WrittenBindings(m[p].slots, s, Dirent(i, name));
      assert m'[p].slots == Written(m[p].slots, s, Dirent(i, name));
      assert m'[p].slots[0] == m[p].slots[0] && m'[p].slots[1] == m[p].slots[1];
    } else if IsDir(m', d) {
      assert m'[d] == m[d];
    }
  }

  lemma {:induction false} LinkKeeps(m: Inodes, t: Shape, p: nat, s: nat, name: string, i: nat)
    requires Inv(m, t) && Live(m, p) && Linkable(m, p, s, name, i)
    ensures Inv(Added(m, p, s, name, i), t)
  {
    var m' := Added(m, p, s, name, i);
    forall d: nat
      ensures DotsAt(m', d) && UpAt(m', t, d) && CountAt(m', d)
    {
      assert DotsAt(m, d) && UpAt(m, t, d) && CountAt(m, d);
      AddedDots(m, p, s, name, i, d);
      AddedCount(m, p, s, name, i, d);
      if d != 0 { AddedUp(m, t, p, s, name, i, d); }
      hide Key, Distinct, HasName, Named, Inv;
    }
    forall d: nat, r: nat
      ensures ClosedAt(m', d, r) && DownAt(m', t, d, r)
    {
      assert ClosedAt(m, d, r) && DownAt(m, t, d, r);
      hide Key, Distinct, HasName, Named, Inv;
    }
    assert Live(m', ROOTINO);
    hide DotsAt, UpAt, CountAt, ClosedAt, DownAt;
  }

  /** A link written into a removed directory makes the count wrong. */
  lemma {:induction false} LinkIntoRemoved(m: Inodes, p: nat, s: nat, name: string, i: nat)
    requires IsDir(m, p) && !Live(m, p) && i in m && m[i].kind != Dir && s <= |m[p].slots| && CountAt(m, i)
    ensures !CountAt(Added(m, p, s, name, i), i)
  {
    var m' := Added(m, p, s, name, i);
    assert forall d, r: nat :: Entry(m', d, r, i) <==> Entry(m, d, r, i);
    NamedSame(m, m', i);
  }

  lemma {:induction false} LinkIntoFreed(m: Inodes, p: nat, s: nat, name: string, i: nat)
    requires IsDir(m, p) && !Live(m, p) && i in m && m[i].kind != Dir && s <= |m[p].slots| && CountAt(m, i)
    ensures !CountAt(Added(m, p, s, name, i) - {p}, i)
  {
    var m' := Added(m, p, s, name, i) - {p};
    assert forall d, r: nat :: Entry(m', d, r, i) <==> Entry(m, d, r, i);
    NamedSame(m, m', i);
  }

  // ------------------------------------------------------------ create

  /** Nobody names an inode that is not allocated. */
  lemma {:induction false} Unnamed(m: Inodes, i: nat, d: nat, s: nat)
    requires Closed(m) && i !in m && i != 0
    ensures !Entry(m, d, s, i)
  {
    assert ClosedAt(m, d, s);
  }

  lemma {:induction false} BornKeeps(m: Inodes, t: Shape, i: nat, kind: Kind)
    requires Inv(m, t) && i !in m && i != 0 && kind != Dir
    ensures Inv(Born(m, i, kind), t)
  {
    var m' := Born(m, i, kind);
    forall d, r: nat, x: nat
      ensures Entry(m', d, r, x) <==> Entry(m, d, r, x)
    {
    }
    forall d: nat
      ensures DotsAt(m', d) && UpAt(m', t, d) && CountAt(m', d)
    {
      assert DotsAt(m, d) && UpAt(m, t, d) && CountAt(m, d);
      if d == i {
        forall e, r: nat ensures !Entry(m', e, r, i) { Unnamed(m, i, e, r); }
        NamedNone(m', i);
      } else {
        NamedSame(m, m', d);
      }
      hide Key, Distinct, HasName, Named, Inv;
    }
    forall d: nat, r: nat
      ensures ClosedAt(m', d, r) && DownAt(m', t, d, r)
    {
      assert ClosedAt(m, d, r) && DownAt(m, t, d, r);
      hide Key, Distinct, HasName, Named, Inv;
    }
    assert Live(m', ROOTINO);
    hide DotsAt, UpAt, CountAt, ClosedAt, DownAt;
  }

  ghost predicate Growable(m: Inodes, p: nat, s: nat, name: string, i: nat, dots: Slots) {
    && Live(m, p) && i !in m && i != 0 && i != ROOTINO
    && 2 <= s <= |m[p].slots| && !Used(m[p].slots, s) && !HasName(m[p].slots, Key(name))
    && |dots| == 2 && dots[0].inum == i && dots[1].inum == p && Key(dots[0].name) == Key(".")
    && Key(dots[1].name) == Key("..")
  }

  lemma {:induction false} GrownEntry(m: Inodes, p: nat, s: nat, name: string, i: nat, dots: Slots, d: nat, r: nat,
                                      x: nat)
    requires Growable(m, p, s, name, i, dots) && x != 0
    ensures Entry(Grown(m, p, s, name, i, dots), d, r, x) <==>
            Entry(m, d, r, x) || (d == p && r == s && x == i) || (d == i && r == 1 && x == p)
  {
  }

  lemma {:induction false} GrownCount(m: Inodes, p: nat, s: nat, name: string, i: nat, dots: Slots, x: nat)
    requires Growable(m, p, s, name, i, dots) && CountAt(m, x) && Closed(m)
    ensures CountAt(Grown(m, p, s, name, i, dots), x)
  {
    var m' := Grown(m, p, s, name, i, dots);
    if x in m' && x != 0 {
      forall d, r: nat
        ensures Entry(m', d, r, x) <==>
                  Entry(m, d, r, x) || (d == p && r == s && x == i) || (d == i && r == 1 && x == p)
      {
        GrownEntry(m, p, s, name, i, dots, d, r, x);
      }
      if x == i {
        forall d, r: nat ensures !Entry(m, d, r, i) { Unnamed(m, i, d, r); }
        NamedOne(m', i, p, s);
      } else if x == p {
        NamedPlus(m, m', p, i, 1);
      } else {
        NamedSame(m, m', x);
      }
      hide Named, Entry;
    }
  }

  lemma {:induction false} GrownUp(m: Inodes, t: Shape, p: nat, s: nat, name: string, i: nat, dots: Slots, d: nat)
    requires Growable(m, p, s, name, i, dots) && UpAt(m, t, d) && UpAt(m, t, p) && d != 0
    ensures UpAt(Grown(m, p, s, name, i, dots), GrownShape(t, p, s, i), d)
  {
    if Live(m, d) && d != ROOTINO {
      GrownEntry(m, p, s, name, i, dots, Parent(m, d), t.place[d], d);
    }
    if d == i {
      GrownEntry(m, p, s, name, i, dots, p, s, i);
    }
    hide Named;
  }

  function GrownShape(t: Shape, p: nat, s: nat, i: nat): Shape {
    if p in t.depth then Shape(t.depth[i := t.depth[p] + 1], t.place[i := s]) else t
  }

  lemma {:induction false} DotsDiffer()
    ensures Key(".") != Key("..")
  {
    BoundedAt(".", DIRSIZ, 1);
    BoundedAt("..", DIRSIZ, 2);
  }

  lemma {:induction false} GrownDots(m: Inodes, p: nat, s: nat, name: string, i: nat, dots: Slots, d: nat)
    requires Growable(m, p, s, name, i, dots) && DotsAt(m, d) && DotsAt(m, p)
    ensures DotsAt(Grown(m, p, s, name, i, dots), d)
  {
    hide Key;
    var m' := Grown(m, p, s, name, i, dots);
    if d == p {
      WrittenBindings(m[p].slots, s, Dirent(i, name));
      assert m'[p].slots == Written(m[p].slots, s, Dirent(i, name));
      assert m'[p].slots[0] == m[p].slots[0] && m'[p].slots[1] == m[p].slots[1];
    } else if d == i {
      DotsDiffer();
      assert m'[d].slots == dots;
    } else if IsDir(m', d) {
      assert m'[d] == m[d];
    }
  }

  lemma {:induction false} GrownDown(m: Inodes, t: Shape, p: nat, s: nat, name: string, i: nat, dots: Slots, d: nat,
                                     r: nat)
    requires Growable(m, p, s, name, i, dots) && DownAt(m, t, d, r) && ClosedAt(m, d, r) && p in t.depth && 0 !in m
    ensures DownAt(Grown(m, p, s, name, i, dots), GrownShape(t, p, s, i), d, r)
    ensures ClosedAt(Grown(m, p, s, name, i, dots), d, r)
  {
    var m' := Grown(m, p, s, name, i, dots);
    if Live(m', d) && d != i && !(d == p && r == s) && r < |m'[d].slots| {
      assert m'[d].slots[r] == m[d].slots[r];
    }
  }

  lemma {:induction false} GrownKeeps(m: Inodes, t: Shape, p: nat, s: nat, name: string, i: nat, dots: Slots)
    requires Inv(m, t) && Growable(m, p, s, name, i, dots)
    ensures Inv(Grown(m, p, s, name, i, dots), GrownShape(t, p, s, i))
  {
    var m', t' := Grown(m, p, s, name, i, dots), GrownShape(t, p, s, i);
    assert CountAt(m, 0) && UpAt(m, t, p) && DotsAt(m, p);
    forall d: nat
      ensures DotsAt(m', d) && UpAt(m', t', d) && CountAt(m', d)
    {
      assert DotsAt(m, d) && UpAt(m, t, d) && CountAt(m, d);
      GrownDots(m, p, s, name, i, dots, d);
      GrownCount(m, p, s, name, i, dots, d);
      if d != 0 { GrownUp(m, t, p, s, name, i, dots, d); }
      hide Key, Distinct, HasName, Named, Inv;
    }
    forall d: nat, r: nat
      ensures ClosedAt(m', d, r) && DownAt(m', t', d, r)
    {
      assert ClosedAt(m, d, r) && DownAt(m, t, d, r);
      GrownDown(m, t, p, s, name, i, dots, d, r);
      hide Key, Distinct, HasName, Named, Inv;
    }
    assert Live(m', ROOTINO);
    hide DotsAt, UpAt, CountAt, ClosedAt, DownAt;
  }

  /** A directory made inside a removed one revives that one, which no directory enters: there is no tree any more. */
  lemma {:induction false} GrownInRemoved(m: Inodes, t: Shape, p: nat, s: nat, name: string, i: nat, dots: Slots,
                                          t': Shape)
    requires Inv(m, t) && IsDir(m, p) && !Live(m, p) && 2 <= s <= |m[p].slots| && |dots| == 2
    requires i !in m && i != 0
    ensures !Inv(Grown(m, p, s, name, i, dots), t')
  {
    var m' := Grown(m, p, s, name, i, dots);
    assert UpAt(m, t, ROOTINO) && CountAt(m, p);
    assert p != ROOTINO;
    if Inv(m', t') {
      assert UpAt(m', t', p);
      var q, r := Parent(m', p), t'.place[p];
      assert Entry(m', q, r, p);
      assert ClosedAt(m, p, r);
      assert Entry(m, q, r, p);
      NamedAny(m, p, q, r);
      assert false;
    }
  }

  // ------------------------------------------------------------ unlink

  /** Slot s of p may be freed: it names an inode, and if that is a directory, an empty one. */
  ghost predicate Droppable(m: Inodes, p: nat, s: nat) {
    && Live(m, p) && 2 <= s < |m[p].slots| && m[p].slots[s].inum in m
    && (IsDir(m, m[p].slots[s].inum) ==> EmptyDir(m[m[p].slots[s].inum].slots))
  }

  predicate EmptyDir(d: Slots) {
    forall r: nat | 2 <= r < |d| :: d[r].inum == 0
  }

  /** Nothing leads up to an empty directory. */
  lemma {:induction false} NoChildren(m: Inodes, t: Shape, e: nat, d: nat)
    requires UpAt(m, t, d) && Live(m, d) && e != ROOTINO && d != 0 && e in m && EmptyDir(m[e].slots)
    ensures Parent(m, d) != e
  {
  }

  lemma {:induction false} OnlyLink(m: Inodes, t: Shape, p: nat, s: nat, d: nat, r: nat)
    requires Inv(m, t) && Droppable(m, p, s) && IsDir(m, m[p].slots[s].inum) && Entry(m, d, r, m[p].slots[s].inum)
    ensures d == p && r == s
  {
    assert DownAt(m, t, p, s) && DownAt(m, t, d, r) && UpAt(m, t, d) && DotsAt(m, d);
    hide Dots, Closed, Up, Down, Counts;
    if r == 1 {
      NoChildren(m, t, m[p].slots[s].inum, d);
    }
  }

  /** An empty directory has one link, and its parent has at least two. */
  lemma {:induction false} EmptyDirLinks(m: Inodes, t: Shape, p: nat, s: nat)
    requires Inv(m, t) && Droppable(m, p, s) && IsDir(m, m[p].slots[s].inum)
    ensures var e := m[p].slots[s].inum;
            && e != ROOTINO && e != p && e != 0 && p != 0 && Parent(m, e) == p && e in t.place && t.place[e] == s
            && m[e].nlink == 1 && m[p].nlink >= 2
  {
    var e := m[p].slots[s].inum;
    assert DownAt(m, t, p, s) && UpAt(m, t, e) && UpAt(m, t, p) && CountAt(m, e) && CountAt(m, p) && DotsAt(m, e)
           && DotsAt(m, p);
    forall d, r: nat | Entry(m, d, r, e) ensures d == p && r == s { OnlyLink(m, t, p, s, d, r); }
    hide Dots, Closed, Up, Down, Counts, Named;
    NamedOne(m, e, p, s);
    if p == ROOTINO {
      NamedTwo(m, p, e, 1, ROOTINO, 1);
    } else {
      NamedTwo(m, p, e, 1, Parent(m, p), t.place[p]);
    }
  }

  lemma {:induction false} DroppedEntry(m: Inodes, t: Shape, p: nat, s: nat, d: nat, r: nat, x: nat)
    requires Inv(m, t) && Droppable(m, p, s) && x != 0
    ensures Entry(Dropped(m, p, s), d, r, x) <==>
            Entry(m, d, r, x) && !(d == p && r == s) && !(IsDir(m, m[p].slots[s].inum) && d == m[p].slots[s].inum)
  {
    if IsDir(m, m[p].slots[s].inum) {
      EmptyDirLinks(m, t, p, s);
    }
    hide Inv;
  }

  lemma {:induction false} DroppedCount(m: Inodes, t: Shape, p: nat, s: nat, x: nat)
    requires Inv(m, t) && Droppable(m, p, s)
    ensures CountAt(Dropped(m, p, s), x)
  {
    var m', e := Dropped(m, p, s), m[p].slots[s].inum;
    assert CountAt(m, x);
    if x in m' {
      forall d, r: nat
        ensures Entry(m', d, r, x) <==> Entry(m, d, r, x) && !(d == p && r == s) && !(IsDir(m, e) && d == e)
      {
        DroppedEntry(m, t, p, s, d, r, x);
      }
      if IsDir(m, e) {
        EmptyDirLinks(m, t, p, s);
      }
      hide Inv, Named;
      if IsDir(m, e) && x == p {
        NamedMinus(m, m', p, e, 1);
      } else if x == e {
        NamedMinus(m, m', e, p, s);
      } else {
        NamedSame(m, m', x);
      }
    }
  }

  lemma {:induction false} DroppedUp(m: Inodes, t: Shape, p: nat, s: nat, d: nat)
    requires Inv(m, t) && Droppable(m, p, s)
    ensures UpAt(Dropped(m, p, s), t, d)
  {
    var m', e := Dropped(m, p, s), m[p].slots[s].inum;
    assert UpAt(m, t, d) && DotsAt(m, d);
    if IsDir(m, e) {
      EmptyDirLinks(m, t, p, s);
    }
    if Live(m', d) {
      if IsDir(m, e) { NoChildren(m, t, e, d); }
      if d != ROOTINO { DroppedEntry(m, t, p, s, Parent(m, d), t.place[d], d); }
    }
    hide Inv, Named;
  }

  lemma {:induction false} DroppedDown(m: Inodes, t: Shape, p: nat, s: nat, d: nat, r: nat)
    requires Inv(m, t) && Droppable(m, p, s)
    ensures DownAt(Dropped(m, p, s), t, d, r) && ClosedAt(Dropped(m, p, s), d, r)
  {
    var m', e := Dropped(m, p, s), m[p].slots[s].inum;
    assert DownAt(m, t, d, r) && ClosedAt(m, d, r) && DotsAt(m, 0);
    if IsDir(m, e) {
      EmptyDirLinks(m, t, p, s);
    }
    hide Inv, Named;
  }

  lemma {:induction false} DroppedDots(m: Inodes, t: Shape, p: nat, s: nat, d: nat)
    requires Inv(m, t) && Droppable(m, p, s)
    ensures DotsAt(Dropped(m, p, s), d)
  {
    assert DotsAt(m, d);
    if d == p {
      ClearedDistinct(m[p].slots, s);
    }
    hide Inv, Key, Distinct;
  }

  lemma {:induction false} UnlinkKeeps(m: Inodes, t: Shape, p: nat, s: nat)
    requires Inv(m, t) && Droppable(m, p, s)
    ensures Inv(Dropped(m, p, s), t)
  {
    var m' := Dropped(m, p, s);
    hide DotsAt, UpAt, CountAt, ClosedAt, DownAt;
    forall d: nat
      ensures DotsAt(m', d) && UpAt(m', t, d) && CountAt(m', d)
    {
      DroppedDots(m, t, p, s, d);
      DroppedUp(m, t, p, s, d);
      DroppedCount(m, t, p, s, d);
    }
    forall d: nat, r: nat
      ensures ClosedAt(m', d, r) && DownAt(m', t, d, r)
    {
      DroppedDown(m, t, p, s, d, r);
    }
    if IsDir(m, m[p].slots[s].inum) { EmptyDirLinks(m, t, p, s); }
  }

  /** The "nlink < 1" panic: what a live directory names has a link. */
  lemma {:induction false} NamedHasLink(m: Inodes, t: Shape, d: nat, s: nat)
    requires Inv(m, t) && Live(m, d) && 1 <= s < |m[d].slots| && m[d].slots[s].inum != 0
    ensures m[d].slots[s].inum in m && m[m[d].slots[s].inum].nlink >= 1
  {
    assert ClosedAt(m, d, s) && CountAt(m, m[d].slots[s].inum);
    NamedAny(m, m[d].slots[s].inum, d, s);
  }

  // ------------------------------------------------------------ iput

  /** The last reference to an inode without links goes: it is freed. */
  lemma {:induction false} FreedKeeps(m: Inodes, t: Shape, i: nat)
    requires Inv(m, t) && i in m && m[i].nlink == 0
    ensures Inv(m - {i}, t)
  {
    var m' := m - {i};
    assert CountAt(m, i);
    forall d, r: nat ensures !Entry(m, d, r, i) {
      if Entry(m, d, r, i) { NamedAny(m, i, d, r); }
    }
    forall d: nat
      ensures DotsAt(m', d) && UpAt(m', t, d) && CountAt(m', d)
    {
      assert DotsAt(m, d) && UpAt(m, t, d) && CountAt(m, d);
      NamedSame(m, m', d) by {
        assert forall e, r: nat :: Entry(m', e, r, d) <==> Entry(m, e, r, d);
      }
      hide Key, Distinct, HasName, Named, Inv;
    }
    forall d: nat, r: nat
      ensures ClosedAt(m', d, r) && DownAt(m', t, d, r)
    {
      assert ClosedAt(m, d, r) && DownAt(m, t, d, r) && DotsAt(m, d);
      assert !Entry(m, d, r, i);
      hide Key, Distinct, HasName, Named, Inv;
    }
    assert Live(m', ROOTINO);
    hide DotsAt, UpAt, CountAt, ClosedAt, DownAt;
  }

  // ------------------------------------------------------------ what the invariant means

  /** Following ".." n times. */
  function Ascend(m: Inodes, d: nat, n: nat): nat
    decreases n
  {
    if n == 0 then d else Ascend(m, Parent(m, d), n - 1)
  }

  /** From every live directory ".." leads to the root in the end. */
  lemma {:induction false} ReachesRoot(m: Inodes, t: Shape, d: nat) returns (n: nat)
    requires Inv(m, t) && Live(m, d)
    ensures Ascend(m, d, n) == ROOTINO
    decreases if d in t.depth then t.depth[d] else 0
  {
    assert UpAt(m, t, d) && UpAt(m, t, Parent(m, d));
    if d == ROOTINO {
      n := 0;
    } else {
      var k := ReachesRoot(m, t, Parent(m, d));
      n := k + 1;
    }
  }

  /** The image builder's root: a directory that is its own parent. */
  function Bare(dots: Slots): Inodes {
    map[ROOTINO := Inode(Dir, 1, dots)]
  }

  lemma {:induction false} BareKeeps(dots: Slots)
    requires |dots| == 2 && dots[0].inum == ROOTINO && dots[1].inum == ROOTINO
    requires Key(dots[0].name) == Key(".") && Key(dots[1].name) == Key("..")
    ensures Inv(Bare(dots), Shape(map[ROOTINO := 0], map[]))
  {
    hide Key;
    DotsDiffer();
    var m := Bare(dots);
    assert Distinct(dots);
    NamedOne(m, ROOTINO, ROOTINO, 1);
    hide Named;
  }

  // ------------------------------------------------------------ names a path can spell

  /** Every name of every directory can stand in a path. */
  ghost predicate Spelled(m: Inodes) {
    forall d: nat, k: string | IsDir(m, d) && HasName(m[d].slots, k) :: Legal(k)
  }

  /** Directory d has only names it had before, and perhaps one that is legal. */
  ghost predicate NamesFrom(m: Inodes, m': Inodes, d: nat, name: string) {
    forall k | IsDir(m', d) && HasName(m'[d].slots, k) :: (IsDir(m, d) && HasName(m[d].slots, k)) || k == name
  }

  lemma SpelledFrom(m: Inodes, m': Inodes, name: string)
    requires Spelled(m) && Legal(name) && forall d: nat :: NamesFrom(m, m', d, name)
    ensures Spelled(m')
  {
    hide HasName;
    forall d: nat, k: string | IsDir(m', d) && HasName(m'[d].slots, k) ensures Legal(k) {
      assert NamesFrom(m, m', d, name);
    }
  }

  /** An entry with a legal name keeps names legal. */
  lemma {:induction false} AddedSpelled(m: Inodes, p: nat, s: nat, name: string, i: nat)
    requires Spelled(m) && p in m && i in m && s <= |m[p].slots| && Legal(Key(name))
    ensures Spelled(Added(m, p, s, name, i))
  {
    hide Key;
    var m' := Added(m, p, s, name, i);
    forall d: nat ensures NamesFrom(m, m', d, Key(name)) {
      if d == p { WrittenNames(m[p].slots, s, Dirent(i, name)); }
    }
    SpelledFrom(m, m', Key(name));
  }

  lemma {:induction false} WrittenNames(d: Slots, s: nat, e: Dirent)
    requires s <= |d|
    ensures forall k | HasName(Written(d, s, e), k) :: HasName(d, k) || k == Key(e.name)
  {
    hide Key;
    var w := Written(d, s, e);
    forall k | HasName(w, k) ensures HasName(d, k) || k == Key(e.name) {
      var i := SlotOf(w, k);
      if i != s { assert Used(d, i); }
    }
  }

  lemma {:induction false} DroppedSpelled(m: Inodes, p: nat, s: nat)
    requires Spelled(m) && p in m && s < |m[p].slots| && m[p].slots[s].inum in m
    ensures Spelled(Dropped(m, p, s))
  {
    hide Key;
    var m' := Dropped(m, p, s);
    forall d: nat, k: string | IsDir(m', d) && HasName(m'[d].slots, k) ensures Legal(k) {
      var i := SlotOf(m'[d].slots, k);
      assert Used(m[d].slots, i);
    }
  }

  lemma FreedSpelled(m: Inodes, i: nat)
    requires Spelled(m)
    ensures Spelled(m - {i})
  {
    hide HasName;
    var m' := m - {i};
    forall d: nat, k: string | IsDir(m', d) && HasName(m'[d].slots, k) ensures Legal(k) { assert IsDir(m, d); }
  }
}
