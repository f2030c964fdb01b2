/**
 The system calls of src/sysfile.c that change the directory tree, with the directory and inode reference
 functions of src/fs.c that they use. Calls are sequential. `refs` holds the reference counts of the
 inode cache.
 */
module Sysfile {
  import opened Common
  import opened Names
  import opened Directory
  import opened DirTree

  function Ref(refs: map<nat, nat>, i: nat): nat {
    if i in refs then refs[i] else 0
  }

  /** The inodes after one reference to i was dropped: the last one frees an inode without links. */
  function Put(m: Inodes, refs: map<nat, nat>, i: nat): Inodes {
    if Ref(refs, i) == 1 && i in m && m[i].nlink == 0 then m - {i} else m
  }

  /** An inode that dropping a reference taken since cannot free. */
  predicate Safe(m: Inodes, refs: map<nat, nat>, i: nat) {
    i in m && (m[i].nlink != 0 || Ref(refs, i) > 0)
  }

  /** Referenced inodes are allocated, and an allocated inode without links is referenced. */
  ghost predicate RefsOk(m: Inodes, refs: map<nat, nat>) {
    && (forall i | Ref(refs, i) > 0 :: i in m)
    && (forall i | i in m :: Safe(m, refs, i))
  }

  lemma {:induction false} PutRefs(m: Inodes, refs: map<nat, nat>, i: nat)
    requires RefsOk(m, refs) && Ref(refs, i) >= 1
    ensures RefsOk(Put(m, refs, i), refs[i := Ref(refs, i) - 1])
  {
  }

  lemma {:induction false} GetRefs(m: Inodes, refs: map<nat, nat>, i: nat)
    requires RefsOk(m, refs) && i in m
    ensures RefsOk(m, refs[i := Ref(refs, i) + 1])
  {
  }

  /** Changes of inodes that are referenced, or keep their links, or have some. */
  lemma {:induction false} SameRefs(m: Inodes, m': Inodes, refs: map<nat, nat>)
    requires RefsOk(m, refs) && m.Keys <= m'.Keys
    requires forall i | i in m' && m'[i].nlink == 0 :: (i in m && m[i].nlink == 0) || Ref(refs, i) > 0
    ensures RefsOk(m', refs)
  {
    forall i | i in m' ensures Safe(m', refs, i) {
      assert i in m ==> Safe(m, refs, i);
    }
  }

  /** The name of a slot other than "." and "..". */
  predicate Dot(name: string) {
    Key(name) == Key(".") || Key(name) == Key("..")
  }

  /** In a directory with its dots, any other name is in a later slot; in a removed one there is none. */
  lemma {:induction false} LaterSlot(m: Inodes, t: Shape, d: nat, s: nat)
    requires Inv(m, t) && IsDir(m, d) && Used(m[d].slots, s) && !Dot(m[d].slots[s].name)
    ensures s >= 2 && Live(m, d)
  {
    assert DotsAt(m, d) && ClosedAt(m, d, s);
  }

  datatype Walk = Found(ip: nat, name: string) | Missing | Lost

  datatype Called = Done(ip: nat, dp: nat, s: nat) | Failed | Panicked

  datatype Created = Opened(i: nat) | Made(i: nat) | Refused | Panic

  class FileTree {
    var inodes: Inodes
    var refs: map<nat, nat>
    const ninodes: nat
    ghost var tree: Shape

    ghost predicate Valid()
      reads this
    {
      Inv(inodes, tree) && RefsOk(inodes, refs)
    }

    /** The tree of a new image: a root directory with its dots, referenced as the first process's directory. */
    constructor (ninodes: nat)
      ensures Valid() && this.ninodes == ninodes && inodes.Keys == {ROOTINO} && Ref(refs, ROOTINO) == 1
      ensures Live(inodes, ROOTINO) && |inodes[ROOTINO].slots| == 2 && Spelled(inodes)
    {
      this.ninodes := ninodes;
      var dots := [Dirent(ROOTINO, "."), Dirent(ROOTINO, "..")];
      inodes := Bare(dots);
      refs := map[ROOTINO := 1];
      tree := Shape(map[ROOTINO := 0], map[]);
      DotsSpelled(ROOTINO, ROOTINO);
      hide Key, Inv;
      BareKeeps(dots);
    }

    /** `iget`, `idup`. */
    method Iget(i: nat)
      modifies `refs
      ensures refs == old(refs)[i := Ref(old(refs), i) + 1]
    {
      refs := refs[i := (if i in refs then refs[i] else 0) + 1];
    }

    /** `iput`. */
    method Iput(i: nat)
      requires Ref(refs, i) >= 1
      modifies `refs, `inodes
      ensures refs == old(refs)[i := Ref(old(refs), i) - 1]
      ensures inodes == Put(old(inodes), old(refs), i)
      ensures forall t | Inv(old(inodes), t) :: Inv(inodes, t)
      ensures RefsOk(old(inodes), old(refs)) ==> RefsOk(inodes, refs)
    {
      if Ref(refs, i) == 1 && i in inodes && inodes[i].nlink == 0 {
        forall t | Inv(inodes, t) ensures Inv(inodes - {i}, t) { FreedKeeps(inodes, t, i); }
      }
      hide Inv, RefsOk;
      if RefsOk(inodes, refs) { PutRefs(inodes, refs, i); }
      if refs[i] == 1 && i in inodes && inodes[i].nlink == 0 {
        inodes := inodes - {i};
      }
      refs := refs[i := refs[i] - 1];
    }

    /** `dirlookup`: finds exactly the names that are there. */
    method Dirlookup(dp: nat, name: string) returns (r: Option<nat>)
      requires IsDir(inodes, dp)
      ensures r == None <==> !HasName(inodes[dp].slots, Key(name))
      ensures r.Some? ==> Used(inodes[dp].slots, r.value) && Key(inodes[dp].slots[r.value].name) == Key(name)
      ensures r.Some? && Distinct(inodes[dp].slots) ==>
                Bindings(inodes[dp].slots)[Key(name)] == inodes[dp].slots[r.value].inum
    {
      hide Key;
      var d := inodes[dp].slots;
      var off: nat := 0;
      while off < |d|
        invariant off <= |d| && forall i: nat | i < off && Used(d, i) :: Key(d[i].name) != Key(name)
      {
        if d[off].inum != 0 {
          var c := Strncmp(name, d[off].name, DIRSIZ);
          SameKey(name, d[off].name);
          if c == 0 {
            if Distinct(d) { Bound(d, off); }
            return Some(off);
          }
        }
        off := off + 1;
      }
      r := None;
    }

    /** `dirlink`: binds a name that was free, in the first free slot or at the end. */
    method Dirlink(dp: nat, name: string, inum: nat) returns (r: Option<nat>)
      requires IsDir(inodes, dp) && inum != 0
      modifies `inodes
      ensures r == None <==> HasName(old(inodes)[dp].slots, Key(name))
      ensures r == None ==> inodes == old(inodes)
      ensures r.Some? ==>
                && r.value <= |old(inodes)[dp].slots| && !Used(old(inodes)[dp].slots, r.value)
                && (forall i: nat | i < r.value :: Used(old(inodes)[dp].slots, i))
                && inodes == old(inodes)[dp := old(inodes)[dp].(slots :=
                     Written(old(inodes)[dp].slots, r.value, Dirent(inum, Padded(name, DIRSIZ))))]
      ensures r.Some? && Distinct(old(inodes)[dp].slots) ==>
                && Distinct(inodes[dp].slots)
                && Bindings(inodes[dp].slots) == Bindings(old(inodes)[dp].slots)[Key(name) := inum]
    {
      r := Dirlookup(dp, name);
      if r.Some? { return None; }
      var d := inodes[dp].slots;
      var off: nat := 0;
      while off < |d|
        invariant off <= |d| && forall i: nat | i < off :: Used(d, i)
      {
        if d[off].inum == 0 { break; }
        off := off + 1;
      }
      var stored := Strncpy(name, DIRSIZ);
      var e := Dirent(inum, stored);
      SameKey(name, stored);
      inodes := inodes[dp := inodes[dp].(slots := if off < |d| then d[off := e] else d + [e])];
      if Distinct(d) { WrittenBindings(d, off, e); }
      hide Key;
      r := Some(off);
    }

    /** `isdirempty`. */
    method Isdirempty(dp: nat) returns (r: bool)
      requires IsDir(inodes, dp)
      ensures r <==> EmptyDir(inodes[dp].slots)
    {
      var d := inodes[dp].slots;
      var off: nat := 2;
      while off < |d|
        invariant 2 <= off && forall i: nat | 2 <= i < off && i < |d| :: d[i].inum == 0
      {
        if d[off].inum != 0 { return false; }
        off := off + 1;
      }
      r := true;
    }

    /**
     `sys_link`: the inode at the old path gets a second name at the new one. It fails, and changes
     nothing, exactly when one of them does not resolve, the old one is a directory, or the new name
     exists. It panics exactly when a walk meets a freed inode. A link written into a removed directory,
     and only that, ruins the counts.
     */
    method SysLink(old0: string, new0: string, cwd: nat) returns (r: Called)
      requires Valid() && '\0' !in old0 && '\0' !in new0 && Ref(refs, cwd) > 0
      modifies `inodes, `refs
      ensures r.Panicked? <==> LinkPanics(old(inodes), Start(old0, cwd), Elements(old0), Start(new0, cwd),
                                          Elements(new0))
      ensures r.Failed? ==> Valid() && inodes == old(inodes)
      ensures r.Failed? ==> !LinkWorks(old(inodes), Start(old0, cwd), Elements(old0), Start(new0, cwd), Elements(new0))
      ensures r.Done? ==> LinkWorks(old(inodes), Start(old0, cwd), Elements(old0), Start(new0, cwd), Elements(new0))
      ensures r.Done? ==>
                && r.ip == Resolve(old(inodes), Start(old0, cwd), Elements(old0)).value
                && r.dp == ParentOf(old(inodes), Start(new0, cwd), Elements(new0)).value
                && r.dp in old(inodes) && r.ip in old(inodes) && r.s <= |old(inodes)[r.dp].slots|
                && inodes == Added(old(inodes), r.dp, r.s, Padded(Last(Elements(new0)), DIRSIZ), r.ip)
                && (Valid() <==> Live(old(inodes), r.dp)) && (Valid() || NoTree(inodes))
      ensures !r.Panicked? ==> forall x :: Ref(refs, x) == Ref(old(refs), x)
    {
      hide Inv, Key, HasName, Distinct, RefsOk, NoTree, Resolve, Dangles, Elements, Bindings, Put, Padded;
      ghost var m, t, refs0 := inodes, tree, refs;
      InvParts(m, t);
      var w := Namex(old0, false, cwd);
      if w.Lost? { return Panicked; }
      if w.Missing? { return Failed; }
      var ip := w.ip;
      if ip !in inodes { return Panicked; }
      if inodes[ip].kind == Dir {
        AllSafe(m, refs0, ip);
        NotFreed(m, refs0, refs, ip);
        Iput(ip);
        return Failed;
      }
      CountIsSize(m, t, ip);
      inodes := inodes[ip := inodes[ip].(nlink := inodes[ip].nlink + 1)];
      ghost var m1, refs1 := inodes, refs;
      Bumped(m, t, m1, refs1, ip, Start(new0, cwd), Elements(new0));
      w := Namex(new0, true, cwd);
      if w.Lost? { return Panicked; }
      if w.Missing? {
        inodes := inodes[ip := inodes[ip].(nlink := inodes[ip].nlink - 1)];
        assert inodes == m;
        RefsMore(m, refs0, refs, ip, ip);
        AllSafe(m, refs0, ip);
        NotFreed(m, refs0, refs, ip);
        Iput(ip);
        return Failed;
      }
      r := LinkAt(ip, w.ip, w.name, Last(Elements(new0)), m, refs0);
    }

    /** `sys_link` once both paths are resolved and the count is raised. */
    method LinkAt(ip: nat, dp: nat, name: string, ghost last: string, ghost m: Inodes, ghost refs0: map<nat, nat>)
      returns (r: Called)
      requires Inv(m, tree) && RefsOk(m, refs0) && ip in m && m[ip].kind != Dir && IsDir(m, dp)
               && Key(name) == Key(last)
      requires inodes == m[ip := m[ip].(nlink := m[ip].nlink + 1)]
      requires forall x :: Ref(refs, x) == Ref(refs0, x) + (if x == ip || x == dp then 1 else 0)
      modifies `inodes, `refs
      ensures !r.Panicked? && (r.Failed? <==> HasName(m[dp].slots, Key(last)))
      ensures r.Failed? ==> Valid() && inodes == m
      ensures r.Done? ==>
                && r.ip == ip && r.dp == dp && r.s <= |m[dp].slots|
                && inodes == Added(m, dp, r.s, Padded(last, DIRSIZ), ip)
                && (Valid() <==> Live(m, dp)) && (Valid() || NoTree(inodes))
      ensures forall x :: Ref(refs, x) == Ref(refs0, x)
    {
      hide Inv, Key, HasName, Distinct, RefsOk, NoTree, Bindings, Put;
      RefsMore(m, refs0, refs, ip, dp);
      AllSafe(m, refs0, dp);
      AllSafe(m, refs0, ip);
      NotFreed(m, refs0, refs, dp);
      NotFreed(m, refs0, refs, ip);
      assert inodes[dp] == m[dp];
      Allocated(m, tree, ip);
      var s := Dirlink(dp, name, ip);
      if s == None {
        LinkUndone(ip, dp, m);
        return Failed;
      }
      SamePadded(name, last);
      PaddedKey(name);
      FreeSlot(m, tree, dp, s.value);
      assert inodes == Added(m, dp, s.value, Padded(last, DIRSIZ), ip);
      NotFreed(inodes, refs0, refs, dp);
      LinkDone(ip, dp, s.value, Padded(last, DIRSIZ), m);
      r := Done(ip, dp, s.value);
    }

    /** The error path of `sys_link` once the parent is known. */
    method LinkUndone(ip: nat, dp: nat, ghost m: Inodes)
      requires Inv(m, tree) && RefsOk(m, refs) && ip in m && dp in m && m[dp].kind == Dir && m[ip].kind != Dir
      requires Ref(refs, ip) >= 1 && Ref(refs, dp) >= 1
      requires inodes == m[ip := m[ip].(nlink := m[ip].nlink + 1)]
      modifies `inodes, `refs
      ensures Valid() && inodes == PutBoth(m, old(refs), ip, Some(dp))
      ensures forall x :: Ref(refs, x) == Ref(old(refs), x) - (if x == ip || x == dp then 1 else 0)
    {
      hide Inv, RefsOk;
      PutInv(m, tree, refs, dp);
      PutRefs(m, refs, dp);
      Iput(dp);
      inodes := inodes[ip := inodes[ip].(nlink := inodes[ip].nlink - 1)];
      assert inodes == Put(m, old(refs), dp);
      Iput(ip);
    }

    /** The success path of `sys_link` once the entry is written. */
    method LinkDone(ip: nat, dp: nat, ghost s: nat, ghost stored: string, ghost m: Inodes)
      requires Inv(m, tree) && RefsOk(m, refs) && Linkable(m, dp, s, stored, ip)
               && inodes == Added(m, dp, s, stored, ip)
      requires Ref(refs, ip) >= 1 && Ref(refs, dp) >= 1
      modifies `inodes, `refs
      ensures inodes == Put(Added(m, dp, s, stored, ip), old(refs), dp)
      ensures (Valid() <==> Live(m, dp)) && (Valid() || NoTree(inodes))
      ensures forall x :: Ref(refs, x) == Ref(old(refs), x) - (if x == ip || x == dp then 1 else 0)
    {
      hide Inv, RefsOk, Linkable, NoTree;
      LinkableMeans(m, tree, dp, s, stored, ip);
      SameRefs(m, inodes, refs);
      if Live(m, dp) {
        LinkKeeps(m, tree, dp, s, stored, ip);
      } else {
        RemovedBreaks(m, tree, dp, s, stored, ip);
      }
      Iput(dp);
      Iput(ip);
      if !Live(m, dp) { NotValid(inodes, tree); }
    }

    /**
     `sys_unlink` in the parent directory: frees the slot of the name, unless it is a dot, missing, or a
     directory with entries. The panic for an inode without links cannot happen.
     */
    method Unlink(dp: nat, name: string) returns (r: Option<nat>)
      requires Valid() && IsDir(inodes, dp) && Ref(refs, dp) >= 1
      modifies `inodes, `refs
      ensures Valid()
      ensures r == None ==> inodes == Put(old(inodes), old(refs), dp) && Unremovable(old(inodes), dp, name)
      ensures r.Some? ==> !Dot(name) && Droppable(old(inodes), dp, r.value)
                          && Key(old(inodes)[dp].slots[r.value].name) == Key(name)
      ensures r.Some? ==> inodes == Unlinked(old(inodes), old(refs), dp, r.value)
      ensures forall x :: Ref(refs, x) == Ref(old(refs), x) - (if x == dp then 1 else 0)
    {
      ghost var m, t := inodes, tree;
      hide Inv, Key, HasName, Distinct, RefsOk, NoTree;
      var c := Strncmp(name, ".", DIRSIZ);
      var cc := Strncmp(name, "..", DIRSIZ);
      SameKey(name, ".");
      SameKey(name, "..");
      if c == 0 || cc == 0 {
        Iput(dp);
        return None;
      }
      var found := Dirlookup(dp, name);
      if found == None {
        Iput(dp);
        return None;
      }
      var gone := Remove(dp, found.value);
      if gone { r := Some(found.value); } else { r := None; }
    }

    /** `sys_unlink` once the name is found: any inode goes, but a directory only if it is empty. */
    method Remove(dp: nat, off: nat) returns (gone: bool)
      requires Valid() && IsDir(inodes, dp) && Ref(refs, dp) >= 1
      requires Used(inodes[dp].slots, off) && !Dot(inodes[dp].slots[off].name)
      modifies `inodes, `refs
      ensures Valid() && (gone <==> Droppable(old(inodes), dp, off))
      ensures inodes == if gone then Unlinked(old(inodes), old(refs), dp, off) else Put(old(inodes), old(refs), dp)
      ensures !gone ==> var ip := old(inodes)[dp].slots[off].inum;
                        IsDir(old(inodes), ip) && !EmptyDir(old(inodes)[ip].slots)
      ensures forall x :: Ref(refs, x) == Ref(old(refs), x) - (if x == dp then 1 else 0)
    {
      ghost var m, t := inodes, tree;
      hide Inv, Key, HasName, Distinct, RefsOk, NoTree, EmptyDir;
      LaterSlot(m, t, dp, off);
      var ip := inodes[dp].slots[off].inum;
      NamedHasLink(m, t, dp, off);
      GetRefs(m, refs, ip);
      Iget(ip);
      assert inodes[ip].nlink >= 1;
      if inodes[ip].kind == Dir {
        var empty := Isdirempty(ip);
        if !empty {
          Iput(ip);
          Iput(dp);
          return false;
        }
      }
      Apart(m, t, dp, off);
      UnlinkKeeps(m, t, dp, off);
      Dropping(dp, off, ip);
      gone := true;
    }

    /** The writes at the end of `sys_unlink`, and the references it drops. */
    method Dropping(dp: nat, off: nat, ip: nat)
      requires Valid() && Droppable(inodes, dp, off) && inodes[dp].slots[off].inum == ip && dp != ip
      requires Ref(refs, dp) >= 1 && Ref(refs, ip) >= 1 && Inv(Dropped(inodes, dp, off), tree)
      requires inodes[dp].nlink >= if IsDir(inodes, ip) then 2 else 1
      modifies `inodes, `refs
      ensures Valid() && inodes == Put(Dropped(old(inodes), dp, off), old(refs), ip)
      ensures forall x :: Ref(refs, x) == Ref(old(refs), x) - (if x == dp || x == ip then 1 else 0)
    {
      hide Inv, RefsOk;
      ghost var m := inodes;
      SameRefs(m, Dropped(m, dp, off), refs);
      inodes := inodes[dp := inodes[dp].(slots := inodes[dp].slots[off := Dirent(0, "")])];
      if inodes[ip].kind == Dir {
        inodes := inodes[dp := inodes[dp].(nlink := inodes[dp].nlink - 1)];
      }
      PutRefs(Dropped(m, dp, off), refs, dp);
      Iput(dp);
      inodes := inodes[ip := inodes[ip].(nlink := inodes[ip].nlink - 1)];
      assert inodes == Dropped(m, dp, off);
      Iput(ip);
    }

    /** `sys_unlink`: Unlink in the directory the path leads to; it panics exactly when the walk is lost. */
    method SysUnlink(path: string, cwd: nat) returns (r: Called)
      requires Valid() && '\0' !in path && Ref(refs, cwd) > 0
      modifies `inodes, `refs
      ensures r.Panicked? <==> Dangles(old(inodes), Start(path, cwd), Elements(path))
      ensures !r.Panicked? ==> Valid() && forall x :: Ref(refs, x) == Ref(old(refs), x)
      ensures r.Failed? ==> inodes == old(inodes)
      ensures r.Failed? ==>
                var d := ParentOf(old(inodes), Start(path, cwd), Elements(path));
                d.Some? ==> Unremovable(old(inodes), d.value, Last(Elements(path)))
      ensures r.Done? ==>
                && ParentOf(old(inodes), Start(path, cwd), Elements(path)) == Some(r.dp)
                && Droppable(old(inodes), r.dp, r.s) && r.ip == old(inodes)[r.dp].slots[r.s].inum
                && Key(old(inodes)[r.dp].slots[r.s].name) == Key(Last(Elements(path)))
                && inodes == Unlinked(old(inodes), old(refs), r.dp, r.s)
    {
      hide Inv, Key, HasName, Distinct, RefsOk, Resolve, Dangles, Elements, Put;
      ghost var refs0 := refs;
      var m := inodes;
      InvParts(m, tree);
      var w := Namex(path, true, cwd);
      if w.Lost? { return Panicked; }
      if w.Missing? { return Failed; }
      AllSafe(m, refs0, w.ip);
      NotFreed(m, refs0, refs, w.ip);
      SameUnremovable(m, w.ip, w.name, Last(Elements(path)));
      var s := Unlink(w.ip, w.name);
      if s == None { return Failed; }
      Apart(m, tree, w.ip, s.value);
      r := Done(m[w.ip].slots[s.value].inum, w.ip, s.value);
    }

    /** `ialloc`: the first free inode number. */
    method Ialloc() returns (r: Option<nat>)
      ensures r == None <==> forall i: nat | 1 <= i < ninodes :: i in inodes
      ensures r.Some? ==> 1 <= r.value < ninodes && r.value !in inodes
                          && forall i: nat | 1 <= i < r.value :: i in inodes
    {
      var inum: nat := 1;
      while inum < ninodes
        invariant 1 <= inum && forall i: nat | 1 <= i < inum && i < ninodes :: i in inodes
      {
        if inum !in inodes { return Some(inum); }
        inum := inum + 1;
      }
      r := None;
    }

    /**
     `create` in the parent directory. An existing file is opened; anything new is entered under the name
     with one link, and a new directory has its dots. Making something in a removed directory, and only
     that, ruins the counts or the tree.
     */
    method Create(dp: nat, name: string, kind: Kind) returns (r: Created)
      requires Valid() && IsDir(inodes, dp) && Ref(refs, dp) >= 1
      modifies `inodes, `refs, `tree
      ensures Distinct(old(inodes)[dp].slots)
      ensures HasName(old(inodes)[dp].slots, Key(name)) ==>
                && (r.Panic? <==> Bindings(old(inodes)[dp].slots)[Key(name)] !in old(inodes))
                && (r.Opened? <==> kind == File && IsFile(old(inodes), Bindings(old(inodes)[dp].slots)[Key(name)]))
                && !r.Made? && (r.Opened? ==> r.i == Bindings(old(inodes)[dp].slots)[Key(name)])
      ensures !HasName(old(inodes)[dp].slots, Key(name)) ==>
                if forall i: nat | 1 <= i < ninodes :: i in old(inodes) then r.Panic? else r.Made?
      ensures !r.Panic? && !r.Made? ==> Valid() && inodes == Put(old(inodes), old(refs), dp)
      ensures r.Made? ==> (Valid() <==> Live(old(inodes), dp)) && (Valid() || NoTree(inodes))
      ensures r.Made? ==> r.i !in old(inodes) && 1 <= r.i < ninodes
      ensures r.Made? && Live(old(inodes), dp) ==>
                && dp in inodes && r.i in inodes && dp != r.i && inodes[r.i].kind == kind && inodes[r.i].nlink == 1
                && Distinct(inodes[dp].slots)
                && Bindings(inodes[dp].slots) == Bindings(old(inodes)[dp].slots)[Key(name) := r.i]
                && inodes[dp].nlink == old(inodes)[dp].nlink + (if kind == Dir then 1 else 0)
                && SameBut(old(inodes), inodes, dp, r.i)
      ensures !r.Panic? ==> forall x :: Ref(refs, x) == Ref(old(refs), x) - (if x == dp then 1 else 0)
                                                        + (if (r.Made? || r.Opened?) && x == r.i then 1 else 0)
      ensures !r.Panic? && Spelled(old(inodes)) && Legal(Key(name)) ==> Spelled(inodes)
    {
      ghost var m, t := inodes, tree;
      hide Inv, Key, HasName, Distinct, RefsOk, NoTree;
      WellFormed(m, t, dp);
      var found := Dirlookup(dp, name);
      if found.Some? {
        r := OpenExisting(dp, found.value, kind);
        return;
      }
      var slot := Ialloc();
      if slot == None { return Panic; }
      Make(dp, name, slot.value, kind);
      r := Made(slot.value);
    }

    /** `create` from the path; the error of a missing parent is Refused. */
    method SysCreate(path: string, kind: Kind, cwd: nat) returns (r: Created)
      requires Valid() && '\0' !in path && Ref(refs, cwd) > 0
      modifies `inodes, `refs, `tree
      ensures r.Panic? <==>
                || Dangles(old(inodes), Start(path, cwd), Elements(path))
                || (var d := ParentOf(old(inodes), Start(path, cwd), Elements(path));
                    d.Some? && CreatePanics(old(inodes), d.value, Last(Elements(path)), ninodes))
      ensures r.Opened? || r.Refused? ==> Valid() && inodes == old(inodes)
      ensures r.Made? ==>
                var d := ParentOf(old(inodes), Start(path, cwd), Elements(path));
                && d.Some? && !HasName(old(inodes)[d.value].slots, Key(Last(Elements(path))))
                && (Valid() <==> Live(old(inodes), d.value)) && (Valid() || NoTree(inodes))
                && (Live(old(inodes), d.value) ==>
                      && d.value in inodes && r.i in inodes && inodes[r.i].kind == kind && inodes[r.i].nlink == 1
                      && Bindings(inodes[d.value].slots)
                         == Bindings(old(inodes)[d.value].slots)[Key(Last(Elements(path))) := r.i]
                      && SameBut(old(inodes), inodes, d.value, r.i))
      ensures r.Opened? ==>
                && Resolve(old(inodes), Start(path, cwd), Elements(path)) == Some(r.i)
                && kind == File && IsFile(old(inodes), r.i)
      ensures r.Refused? ==>
                var d := ParentOf(old(inodes), Start(path, cwd), Elements(path));
                d.Some? ==> Unopened(old(inodes), d.value, Last(Elements(path)), kind)
      ensures !r.Panic? ==> forall x :: Ref(refs, x) == Ref(old(refs), x)
                                                        + (if (r.Made? || r.Opened?) && x == r.i then 1 else 0)
      ensures !r.Panic? && Spelled(old(inodes)) ==> Spelled(inodes)
    {
      hide Inv, Key, HasName, Distinct, RefsOk, Resolve, Dangles, Elements, Put, Bindings, NoTree;
      ghost var m, refs0, es := inodes, refs, Elements(path);
      InvParts(m, tree);
      var w := Namex(path, true, cwd);
      if w.Lost? { return Panic; }
      if w.Missing? { return Refused; }
      AllSafe(m, refs0, w.ip);
      NotFreed(m, refs0, refs, w.ip);
      LastStep(m, Start(path, cwd), es, w.ip);
      LastLegal(path);
      r := Create(w.ip, w.name, kind);
    }

    /** `create` when the name is new and inode i free. */
    method Make(dp: nat, name: string, i: nat, kind: Kind)
      requires Valid() && IsDir(inodes, dp) && Ref(refs, dp) >= 1 && i !in inodes && i != 0
      requires !HasName(inodes[dp].slots, Key(name)) && Distinct(inodes[dp].slots)
      modifies `inodes, `refs, `tree
      ensures (Valid() <==> Live(old(inodes), dp)) && (Valid() || NoTree(inodes))
      ensures Live(old(inodes), dp) ==>
                && dp in inodes && i in inodes && dp != i && inodes[i].kind == kind && inodes[i].nlink == 1
                && Distinct(inodes[dp].slots)
                && Bindings(inodes[dp].slots) == Bindings(old(inodes)[dp].slots)[Key(name) := i]
                && inodes[dp].nlink == old(inodes)[dp].nlink + (if kind == Dir then 1 else 0)
                && SameBut(old(inodes), inodes, dp, i)
      ensures forall x :: Ref(refs, x) == Ref(old(refs), x) - (if x == dp then 1 else 0) + (if x == i then 1 else 0)
      ensures Spelled(old(inodes)) && Legal(Key(name)) ==> Spelled(inodes)
    {
      hide Inv, Key, HasName, Distinct, RefsOk, Bindings, NoTree;
      if kind == Dir {
        MakeDir(dp, name, i);
      } else {
        MakeFile(dp, name, i, kind);
      }
      GetRefs(inodes, refs, i);
      Iget(i);
      ghost var m1 := inodes;
      Iput(dp);
      assert inodes == m1 || inodes == m1 - {dp};
      if Spelled(m1) { FreedSpelled(m1, dp); }
      if !Live(old(inodes), dp) { NotValid(inodes, tree); }
    }

    /** `create` when the name is there: a file may be opened as a file, nothing else. */
    method OpenExisting(dp: nat, s: nat, kind: Kind) returns (r: Created)
      requires Valid() && IsDir(inodes, dp) && Ref(refs, dp) >= 1 && Used(inodes[dp].slots, s)
      modifies `inodes, `refs
      ensures !r.Made? && (r.Panic? <==> old(inodes)[dp].slots[s].inum !in old(inodes))
      ensures r.Opened? <==> kind == File && IsFile(old(inodes), old(inodes)[dp].slots[s].inum)
      ensures r.Opened? ==> r.i == old(inodes)[dp].slots[s].inum
      ensures !r.Panic? ==> Valid() && inodes == Put(old(inodes), old(refs), dp)
      ensures !r.Panic? ==> forall x :: Ref(refs, x) == Ref(old(refs), x) - (if x == dp then 1 else 0)
                                                        + (if r.Opened? && x == r.i then 1 else 0)
    {
      hide Inv, RefsOk;
      ghost var m, refs0 := inodes, refs;
      var ip := inodes[dp].slots[s].inum;
      if ip in m {
        GetRefs(m, refs, ip);
        AllSafe(m, refs, ip);
      }
      Iget(ip);
      Iput(dp);
      if ip !in inodes { return Panic; }
      if kind == File && inodes[ip].kind == File {
        return Opened(ip);
      }
      Iput(ip);
      return Refused;
    }

    /** A new file or device: one link, entered under the name. */
    method MakeFile(dp: nat, name: string, i: nat, kind: Kind)
      requires Valid() && IsDir(inodes, dp) && Ref(refs, dp) >= 1 && i !in inodes && i != 0 && kind != Dir
      requires !HasName(inodes[dp].slots, Key(name)) && Distinct(inodes[dp].slots)
      modifies `inodes
      ensures RefsOk(inodes, refs) && dp in inodes && i in inodes && Distinct(inodes[dp].slots)
      ensures Live(old(inodes), dp) ==> Inv(inodes, tree)
      ensures !Live(old(inodes), dp) ==> NoTree(inodes) && NoTree(inodes - {dp})
      ensures inodes[i] == Inode(kind, 1, [])
      ensures inodes[dp] == old(inodes)[dp].(slots := inodes[dp].slots)
      ensures Bindings(inodes[dp].slots) == Bindings(old(inodes)[dp].slots)[Key(name) := i]
      ensures SameBut(old(inodes), inodes, dp, i)
      ensures Spelled(old(inodes)) && Legal(Key(name)) ==> Spelled(inodes)
    {
      ghost var m, t := inodes, tree;
      hide Inv, Key, HasName, Distinct, Padded, Bounded, Bindings, RefsOk, NoTree, SameBut, Spelled, NamesAt;
      inodes := inodes[i := Inode(kind, 1, [])];
      assert inodes[dp] == m[dp];
      var s := Dirlink(dp, name, i);
      assert s.Some?;
      SameRefs(m, inodes, refs);
      FreeSlot(m, t, dp, s.value);
      BornWritten(m, inodes, dp, s.value, Padded(name, DIRSIZ), i, kind);
      NewFile(m, t, dp, s.value, name, i, kind);
      NoneSpelled();
      MadeSpelled(m, inodes, dp, i, name);
    }

    /** A new directory: its dots, one more link to the parent, one link of its own. */
    method MakeDir(dp: nat, name: string, i: nat)
      requires Valid() && IsDir(inodes, dp) && Ref(refs, dp) >= 1 && i !in inodes && i != 0
      requires !HasName(inodes[dp].slots, Key(name)) && Distinct(inodes[dp].slots)
      modifies `inodes, `tree
      ensures RefsOk(inodes, refs) && dp in inodes && i in inodes && Distinct(inodes[dp].slots)
      ensures Live(old(inodes), dp) ==> Inv(inodes, tree)
      ensures !Live(old(inodes), dp) ==> NoTree(inodes)
      ensures inodes[i].kind == Dir && inodes[i].nlink == 1 && inodes[dp].nlink >= 1
      ensures inodes[dp] == old(inodes)[dp].(slots := inodes[dp].slots, nlink := old(inodes)[dp].nlink + 1)
      ensures Bindings(inodes[dp].slots) == Bindings(old(inodes)[dp].slots)[Key(name) := i]
      ensures SameBut(old(inodes), inodes, dp, i)
      ensures Spelled(old(inodes)) && Legal(Key(name)) ==> Spelled(inodes)
    {
      ghost var m, t := inodes, tree;
      hide Inv, Key, HasName, Distinct, Padded, Bounded, Bindings, RefsOk, NoTree, SameBut, Spelled, NamesAt;
      inodes := inodes[i := Inode(Dir, 1, [])];
      inodes := inodes[dp := inodes[dp].(nlink := inodes[dp].nlink + 1)];
      Allocated(m, t, dp);
      MakeDots(i, dp);
      assert inodes[dp].slots == m[dp].slots;
      var s := Dirlink(dp, name, i);
      assert s.Some?;
      SameRefs(m, inodes, refs);
      FreeSlot(m, t, dp, s.value);
      ghost var dots := inodes[i].slots;
      assert inodes == Grown(m, dp, s.value, Padded(name, DIRSIZ), i, dots);
      GrownOrBroken(m, t, dp, s.value, name, i, dots);
      tree := GrownShape(t, dp, s.value, i);
      PaddedDots(i, dp);
      MadeSpelled(m, inodes, dp, i, name);
    }

    /** The first two entries of a new directory; "create dots" cannot panic. */
    method MakeDots(i: nat, dp: nat)
      requires IsDir(inodes, i) && inodes[i].slots == [] && i != 0 && dp != 0
      modifies `inodes
      ensures inodes == old(inodes)[i := old(inodes)[i].(slots :=
                [Dirent(i, Padded(".", DIRSIZ)), Dirent(dp, Padded("..", DIRSIZ))])]
    {
      hide Key, HasName, Distinct, Padded, Bounded, Bindings;
      PaddedKey(".");
      NoNames();
      OneName([Dirent(i, Padded(".", DIRSIZ))]);
      var a := Dirlink(i, ".", i);
      assert a == Some(0);
      assert inodes[i].slots == [Dirent(i, Padded(".", DIRSIZ))];
      ghost var m := inodes;
      var b := Dirlink(i, "..", dp);
      assert b == Some(1);
      assert inodes[i].slots == m[i].slots + [Dirent(dp, Padded("..", DIRSIZ))];
      assert inodes[i].slots == [Dirent(i, Padded(".", DIRSIZ)), Dirent(dp, Padded("..", DIRSIZ))];
    }

    /**
     `namex`: walks the elements of the path, or all but the last, and changes no inode. It is lost, in the
     panic of ilock, exactly when an element is to be looked up in an inode that was freed. Otherwise the
     answer is that of folding lookup, and the references are as before and one more on the inode it returns.
     */
    method Namex(path0: string, parent: bool, cwd: nat) returns (r: Walk)
      requires Dots(inodes) && RefsOk(inodes, refs) && ROOTINO in inodes && '\0' !in path0 && Ref(refs, cwd) > 0
      modifies `inodes, `refs
      ensures inodes == old(inodes)
      ensures r.Lost? <==> Dangles(inodes, Start(path0, cwd), Elements(path0))
      ensures !r.Lost? ==> Agrees(inodes, Start(path0, cwd), Elements(path0), parent, r)
      ensures !r.Lost? ==> forall x :: Ref(refs, x) == Ref(old(refs), x) + (if r.Found? && x == r.ip then 1 else 0)
      ensures !r.Lost? && (r.Found? ==> r.ip in inodes) ==> RefsOk(inodes, refs)
    {
      hide Key, HasName, Distinct, Bindings, Held, Walked, Agrees, Elements, Resolve, Inv, RefsOk, Put, Ahead,
           Dangles, Dots;
      ghost var m, refs0 := inodes, refs;
      ghost var es := Elements(path0);
      var ip: nat := if path0 != "" && path0[0] == '/' then ROOTINO else cwd;
      ghost var start := ip;
      Iget(ip);
      Holding(refs0, refs, ip);
      WalkStart(m, start, es);
      var path := path0;
      var name := "";
      ghost var k: nat := 0;
      assert es == es[0..];
      var next := NextElem(path, es, k);
      while next.Some?
        invariant k <= |es| && Ahead(es, k, path, next)
        invariant parent && es != [] ==> k < |es|
        invariant Held(refs0, refs, ip)
        invariant inodes == m && Walked(m, start, es, k, ip)
        decreases |path|
      {
        AheadMeans(es, k, path, next);
        name, path := next.value.0, next.value.1;
        if ip !in inodes {
          WalkLost(m, start, es, k, ip);
          return Lost;
        }
        AllSafe(m, refs0, ip);
        if inodes[ip].kind != Dir {
          WalkFails(m, start, es, k, ip, parent);
          Leave(ip, refs0);
          return Missing;
        }
        if parent && path == "" {
          WalkParent(m, start, es, ip, name);
          HeldMeans(m, refs0, refs, ip);
          return Found(ip, name);
        }
        var s := Dirlookup(ip, name);
        if s == None {
          WalkFails(m, start, es, k, ip, parent);
          Leave(ip, refs0);
          return Missing;
        }
        var child := inodes[ip].slots[s.value].inum;
        WalkStep(m, start, es, k, ip, s.value);
        Move(ip, child, refs0);
        ip := child;
        k := k + 1;
        next := NextElem(path, es, k);
      }
      AheadMeans(es, k, path, next);
      WalkEnd(m, start, es, k, ip, parent, name);
      if parent {
        WalkAtStart(m, refs0, start, cwd, es, k, ip);
        AllSafe(m, refs0, ip);
        Leave(ip, refs0);
        return Missing;
      }
      HeldMeans(m, refs0, refs, ip);
      r := Found(ip, name);
    }

    method NextElem(path: string, ghost es: seq<string>, ghost k: nat) returns (next: Option<(string, string)>)
      requires '\0' !in path && k <= |es| && Elements(path) == es[k..]
      ensures Ahead(es, k, path, next)
    {
      hide Key, Elements;
      next := Skipelem(path);
      assert k < |es| ==> es[k..][0] == es[k] && es[k..][1..] == es[k + 1..];
    }

    /** Dropping the walk's only reference. */
    method Leave(ip: nat, ghost refs0: map<nat, nat>)
      requires Held(refs0, refs, ip) && Safe(inodes, refs0, ip)
      modifies `inodes, `refs
      ensures inodes == old(inodes) && forall x :: Ref(refs, x) == Ref(refs0, x)
      ensures RefsOk(inodes, refs0) ==> RefsOk(inodes, refs)
    {
      hide Inv;
      Iput(ip);
    }

    /** Taking a reference to the child before dropping the one to the directory. */
    method Move(ip: nat, child: nat, ghost refs0: map<nat, nat>)
      requires Held(refs0, refs, ip) && Safe(inodes, refs0, ip)
      modifies `inodes, `refs
      ensures inodes == old(inodes) && Held(refs0, refs, child)
    {
      hide Inv, RefsOk;
      assert Ref(refs, ip) >= 1;
      Iget(child);
      Iput(ip);
    }
  }

  function Last(es: seq<string>): string {
    if es == [] then "" else es[|es| - 1]
  }

  /** The directory nameiparent finds. */
  ghost function ParentOf(m: Inodes, start: nat, es: seq<string>): Option<nat> {
    if es == [] then None
    else
      var d := Resolve(m, start, es[..|es| - 1]);
      if d.Some? && IsDir(m, d.value) then d else None
  }

  /** The name stands for a freed inode, or is new and every inode is taken. */
  ghost predicate CreatePanics(m: Inodes, d: nat, name: string, ninodes: nat) {
    && d in m
    && if HasName(m[d].slots, Key(name)) then Bindings(m[d].slots)[Key(name)] !in m
       else forall i: nat | 1 <= i < ninodes :: i in m
  }

  /** The name is there, and may not be opened as that kind: only a file may, and as a file. */
  ghost predicate Unopened(m: Inodes, d: nat, name: string, kind: Kind) {
    && d in m && HasName(m[d].slots, Key(name))
    && !(kind == File && IsFile(m, Bindings(m[d].slots)[Key(name)]))
  }

  /** One of the two walks of link, or the lock between them, meets a freed inode. */
  ghost predicate LinkPanics(m: Inodes, a: nat, from: seq<string>, b: nat, to: seq<string>) {
    || Dangles(m, a, from)
    || (Resolve(m, a, from).Some?
        && (Resolve(m, a, from).value !in m
            || (m[Resolve(m, a, from).value].kind != Dir && Dangles(m, b, to))))
  }

  /** The old path names a file or device, and the new one a free name in a directory. */
  ghost predicate LinkWorks(m: Inodes, a: nat, from: seq<string>, b: nat, to: seq<string>) {
    && Resolve(m, a, from).Some? && Resolve(m, a, from).value in m && m[Resolve(m, a, from).value].kind != Dir
    && ParentOf(m, b, to).Some? && !HasName(m[ParentOf(m, b, to).value].slots, Key(Last(to)))
  }

  /** The whole path is one lookup in the parent. */
  lemma {:induction false} LastStep(m: Inodes, start: nat, es: seq<string>, d: nat)
    requires ParentOf(m, start, es) == Some(d) && es != []
    ensures HasName(m[d].slots, Key(Last(es))) ==>
              Resolve(m, start, es) == Some(Bindings(m[d].slots)[Key(Last(es))])
  {
    hide Key, Bindings, HasName;
  }

  lemma {:induction false} InvParts(m: Inodes, t: Shape)
    requires Inv(m, t)
    ensures Dots(m) && ROOTINO in m
  {
  }

  /** A reference taken by a walk is not the one that keeps the inode. */
  lemma {:induction false} NotFreed(m: Inodes, refs0: map<nat, nat>, refs: map<nat, nat>, i: nat)
    requires Safe(m, refs0, i) && Ref(refs, i) == Ref(refs0, i) + 1
    ensures Put(m, refs, i) == m
  {
  }

  lemma {:induction false} RefsMore(m: Inodes, refs0: map<nat, nat>, refs: map<nat, nat>, i: nat, j: nat)
    requires RefsOk(m, refs0) && i in m && j in m
    requires forall x :: Ref(refs, x) == Ref(refs0, x) + (if x == i || x == j then 1 else 0)
    ensures RefsOk(m, refs)
  {
    forall x | x in m ensures Safe(m, refs, x) { assert Safe(m, refs0, x); }
  }

  lemma SamePadded(a: string, b: string)
    requires Key(a) == Key(b)
    ensures Padded(a, DIRSIZ) == Padded(b, DIRSIZ)
  {
  }

  /** Raising a count changes no path. */
  lemma {:induction false} SameResolve(m: Inodes, m1: Inodes, start: nat, es: seq<string>)
    requires m.Keys == m1.Keys && forall i | i in m :: m[i].kind == m1[i].kind && m[i].slots == m1[i].slots
    ensures Resolve(m1, start, es) == Resolve(m, start, es)
    decreases |es|
  {
    if es != [] {
      SameResolve(m, m1, start, es[..|es| - 1]);
      hide Key, Bindings, HasName;
    }
  }

  lemma {:induction false} SameDangles(m: Inodes, m1: Inodes, start: nat, es: seq<string>)
    requires m.Keys == m1.Keys && forall i | i in m :: m[i].kind == m1[i].kind && m[i].slots == m1[i].slots
    ensures Dangles(m1, start, es) <==> Dangles(m, start, es)
  {
    forall k | 0 <= k < |es| ensures Resolve(m1, start, es[..k]) == Resolve(m, start, es[..k]) {
      SameResolve(m, m1, start, es[..k]);
    }
    hide Resolve;
  }

  /** What the second walk of link finds. */
  lemma {:induction false} Bumped(m: Inodes, t: Shape, m1: Inodes, refs: map<nat, nat>, ip: nat, start: nat,
                                  es: seq<string>)
    requires Inv(m, t) && RefsOk(m, refs) && ip in m && m[ip].kind != Dir && Ref(refs, ip) > 0
    requires m1 == m[ip := m[ip].(nlink := m[ip].nlink + 1)]
    ensures Dots(m1) && RefsOk(m1, refs) && ROOTINO in m1
    ensures Dangles(m1, start, es) <==> Dangles(m, start, es)
    ensures ParentOf(m1, start, es) == ParentOf(m, start, es)
  {
    SameDangles(m, m1, start, es);
    if es != [] { SameResolve(m, m1, start, es[..|es| - 1]); }
    SameRefs(m, m1, refs);
    InvParts(m, t);
    hide Inv, Resolve, Dangles, RefsOk, Key, Distinct;
    forall d: nat ensures DotsAt(m1, d) { assert DotsAt(m, d); }
  }

  predicate IsFile(m: Inodes, i: nat) { i in m && m[i].kind == File }

  /** The inodes after references to dp, if any, and then to ip were dropped. */
  function PutBoth(m: Inodes, refs: map<nat, nat>, ip: nat, dp: Option<nat>): Inodes {
    Put(if dp.Some? then Put(m, refs, dp.value) else m, refs, ip)
  }

  lemma {:induction false} PutInv(m: Inodes, t: Shape, refs: map<nat, nat>, i: nat)
    requires Inv(m, t)
    ensures Inv(Put(m, refs, i), t)
  {
    hide Inv;
    if Ref(refs, i) == 1 && i in m && m[i].nlink == 0 { FreedKeeps(m, t, i); }
  }

  /** A link in a removed directory is a wrong count, also once the directory is freed. */
  lemma {:induction false} RemovedBreaks(m: Inodes, t: Shape, p: nat, s: nat, name: string, i: nat)
    requires Inv(m, t) && IsDir(m, p) && !Live(m, p) && i in m && m[i].kind != Dir && s <= |m[p].slots|
    ensures NoTree(Added(m, p, s, name, i)) && NoTree(Added(m, p, s, name, i) - {p})
  {
    var m' := Added(m, p, s, name, i);
    assert CountAt(m, i);
    LinkIntoRemoved(m, p, s, name, i);
    LinkIntoFreed(m, p, s, name, i);
    hide CountAt;
  }

  lemma BornWritten(m: Inodes, m': Inodes, p: nat, s: nat, name: string, i: nat, kind: Kind)
    requires p in m && i !in m && s <= |m[p].slots|
    requires m' == m[i := Inode(kind, 1, [])][p := m[p].(slots := Written(m[p].slots, s, Dirent(i, name)))]
    ensures m' == Added(Born(m, i, kind), p, s, name, i)
  {
    hide Written;
  }

  lemma DotsSpelled(i: nat, p: nat)
    ensures Key(".") == "." && Key("..") == ".."
    ensures Spelled(Bare([Dirent(i, "."), Dirent(p, "..")]))
  {
  }

  /** A new inode without names, or with the dots, in a directory that gained one legal name. */
  lemma {:induction false} MadeSpelled(m: Inodes, m': Inodes, p: nat, i: nat, name: string)
    requires IsDir(m, p) && p in m' && i in m' && SameBut(m, m', p, i) && NamesAt(m'[i].slots)
    requires Bindings(m'[p].slots) == Bindings(m[p].slots)[Key(name) := i]
    ensures Spelled(m) && Legal(Key(name)) ==> Spelled(m')
  {
    if Spelled(m) && Legal(Key(name)) {
      hide Key, HasName;
      forall d: nat, k: string | IsDir(m', d) && HasName(m'[d].slots, k) ensures Legal(k) {
        if d == p {
          assert k in Bindings(m'[p].slots);
          assert k in Bindings(m[p].slots) || k == Key(name);
        } else if d != i {
          assert IsDir(m, d);
        }
      }
    }
  }

  /** The last element of a path is a legal name, cut or not. */
  lemma {:induction false} LastLegal(path: string)
    requires '\0' !in path && Elements(path) != []
    ensures Legal(Key(Last(Elements(path))))
  {
    hide Elements;
    ElementsLegal(path);
    KeyLegal(Last(Elements(path)));
  }

  lemma {:induction false} KeyLegal(e: string)
    requires Legal(e) && '\0' !in e
    ensures Legal(Key(e))
  {
    var k := if |e| < DIRSIZ then |e| else DIRSIZ;
    assert forall i: nat | i < k :: e[i] in e;
    BoundedAt(e, DIRSIZ, k);
    assert Key(e) == e[..k];
  }

  lemma NoneSpelled()
    ensures NamesAt([])
  {
  }

  lemma {:induction false} PaddedDots(i: nat, p: nat)
    ensures NamesAt([Dirent(i, Padded(".", DIRSIZ)), Dirent(p, Padded("..", DIRSIZ))])
  {
    DotsSpelled(i, p);
    PaddedKey(".");
    PaddedKey("..");
    hide Padded, Key, Spelled;
  }

  /** The entry of link, and what unlink leaves, keep names legal. */
  lemma {:induction false} LinkSpelled(m: Inodes, path: string, p: nat, s: nat, i: nat)
    requires Spelled(m) && p in m && i in m && s <= |m[p].slots| && '\0' !in path && Elements(path) != []
    ensures Spelled(Added(m, p, s, Padded(Last(Elements(path)), DIRSIZ), i))
  {
    hide Key, Elements, Spelled;
    LastLegal(path);
    PaddedKey(Last(Elements(path)));
    AddedSpelled(m, p, s, Padded(Last(Elements(path)), DIRSIZ), i);
  }

  lemma {:induction false} UnlinkSpelled(m: Inodes, refs: map<nat, nat>, p: nat, s: nat)
    requires Spelled(m) && p in m && s < |m[p].slots| && m[p].slots[s].inum in m
    ensures Spelled(Unlinked(m, refs, p, s))
  {
    hide Spelled;
    DroppedSpelled(m, p, s);
    FreedSpelled(Dropped(m, p, s), m[p].slots[s].inum);
  }

  /** No names but legal ones. */
  ghost predicate NamesAt(d: Slots) { forall k | HasName(d, k) :: Legal(k) }

  /** A new file entered in a directory: the invariant is kept or lost, as that is live or removed. */
  lemma {:induction false} NewFile(m: Inodes, t: Shape, p: nat, s: nat, name: string, i: nat, kind: Kind)
    requires Inv(m, t) && IsDir(m, p) && i !in m && i != 0 && kind != Dir
    requires 2 <= s <= |m[p].slots| && !Used(m[p].slots, s) && !HasName(m[p].slots, Key(name))
    ensures var m' := Added(Born(m, i, kind), p, s, Padded(name, DIRSIZ), i);
            && (Live(m, p) ==> Inv(m', t)) && (!Live(m, p) ==> NoTree(m') && NoTree(m' - {p}))
            && SameBut(m, m', p, i)
  {
    hide Inv, Key, HasName, Distinct, Padded, Bounded, NoTree;
    PaddedKey(name);
    BornKeeps(m, t, i, kind);
    if Live(m, p) {
      LinkKeeps(Born(m, i, kind), t, p, s, Padded(name, DIRSIZ), i);
    } else {
      RemovedBreaks(Born(m, i, kind), t, p, s, Padded(name, DIRSIZ), i);
    }
  }

  /** No shape makes these inodes a tree with exact counts. */
  ghost predicate NoTree(m: Inodes) { forall t :: !Inv(m, t) }

  lemma NotValid(m: Inodes, t: Shape)
    requires NoTree(m)
    ensures !Inv(m, t)
  {
  }

  /** A new directory keeps the invariant or breaks it, as its parent is live or removed. */
  lemma {:induction false} GrownOrBroken(m: Inodes, t: Shape, p: nat, s: nat, name: string, i: nat, dots: Slots)
    requires Inv(m, t) && IsDir(m, p) && i !in m && i != 0 && 2 <= s <= |m[p].slots| && !Used(m[p].slots, s)
    requires !HasName(m[p].slots, Key(name))
    requires dots == [Dirent(i, Padded(".", DIRSIZ)), Dirent(p, Padded("..", DIRSIZ))]
    ensures var m' := Grown(m, p, s, Padded(name, DIRSIZ), i, dots);
            && (Live(m, p) ==> Inv(m', GrownShape(t, p, s, i)))
            && (!Live(m, p) ==> NoTree(m'))
    ensures m[p].nlink >= 0 && SameBut(m, Grown(m, p, s, Padded(name, DIRSIZ), i, dots), p, i)
  {
    hide Key, HasName, Distinct, Padded, Bounded, Inv;
    PaddedKey(name);
    PaddedKey(".");
    PaddedKey("..");
    RootAllocated(m, t);
    CountIsSize(m, t, p);
    if Live(m, p) {
      GrownKeeps(m, t, p, s, Padded(name, DIRSIZ), i, dots);
    } else {
      forall t' ensures !Inv(Grown(m, p, s, Padded(name, DIRSIZ), i, dots), t') {
        GrownInRemoved(m, t, p, s, Padded(name, DIRSIZ), i, dots, t');
      }
    }
  }

  lemma {:induction false} CountIsSize(m: Inodes, t: Shape, i: nat)
    requires Inv(m, t) && i in m
    ensures m[i].nlink >= 0
  {
    assert CountAt(m, i);
  }

  lemma {:induction false} LinkableMeans(m: Inodes, t: Shape, p: nat, s: nat, name: string, i: nat)
    requires Inv(m, t) && Linkable(m, p, s, name, i)
    ensures IsDir(m, p) && i in m && m[i].kind != Dir && s <= |m[p].slots| && m[i].nlink >= 0
  {
    assert CountAt(m, i);
  }

  /** `next` is element k of the path, and the path behind it. */
  ghost predicate Ahead(es: seq<string>, k: nat, path: string, next: Option<(string, string)>) {
    && k <= |es| && (next == None <==> k == |es|)
    && (next.Some? ==>
          && k < |es| && Key(next.value.0) == Key(es[k]) && Elements(next.value.1) == es[k + 1..]
          && |next.value.1| < |path| && '\0' !in next.value.1 && (next.value.1 == "" <==> k + 1 == |es|))
  }

  lemma {:induction false} AheadMeans(es: seq<string>, k: nat, path: string, next: Option<(string, string)>)
    requires Ahead(es, k, path, next)
    ensures k <= |es| && (next == None <==> k == |es|)
    ensures next.Some? ==> k < |es| && Key(next.value.0) == Key(es[k]) && Elements(next.value.1) == es[k + 1..]
    ensures next.Some? ==> |next.value.1| < |path| && '\0' !in next.value.1 && (next.value.1 == "" <==> k + 1 == |es|)
  {
  }

  /** The references are as in refs0, and one more on ip. */
  ghost predicate Held(refs0: map<nat, nat>, refs: map<nat, nat>, ip: nat) {
    forall x :: Ref(refs, x) == Ref(refs0, x) + (if x == ip then 1 else 0)
  }

  lemma Holding(refs0: map<nat, nat>, refs: map<nat, nat>, ip: nat)
    requires refs == refs0[ip := Ref(refs0, ip) + 1]
    ensures Held(refs0, refs, ip)
  {
  }

  lemma HeldMeans(m: Inodes, refs0: map<nat, nat>, refs: map<nat, nat>, ip: nat)
    requires Held(refs0, refs, ip)
    ensures forall x :: Ref(refs, x) == Ref(refs0, x) + (if x == ip then 1 else 0)
    ensures RefsOk(m, refs0) && ip in m ==> RefsOk(m, refs)
  {
  }

  lemma AllSafe(m: Inodes, refs: map<nat, nat>, i: nat)
    requires RefsOk(m, refs) && i in m
    ensures Safe(m, refs, i)
  {
  }

  // ------------------------------------------------------------ what a path means

  function Start(path: string, cwd: nat): nat {
    if path != "" && path[0] == '/' then ROOTINO else cwd
  }

  /** One lookup. */
  ghost function Step(m: Inodes, d: nat, name: string): Option<nat> {
    if IsDir(m, d) && HasName(m[d].slots, Key(name)) then Some(Bindings(m[d].slots)[Key(name)]) else None
  }

  /** Folding lookup over the elements. */
  ghost function Resolve(m: Inodes, start: nat, es: seq<string>): Option<nat> {
    if es == [] then Some(start)
    else
      var d := Resolve(m, start, es[..|es| - 1]);
      if d == None then None else Step(m, d.value, es[|es| - 1])
  }

  /** The answer namex owes for the elements. */
  ghost predicate Agrees(m: Inodes, start: nat, es: seq<string>, parent: bool, r: Walk) {
    if !parent then
      && (r.Found? <==> Resolve(m, start, es).Some?) && (r.Found? ==> Some(r.ip) == Resolve(m, start, es))
    else if es == [] then r == Missing
    else
      var d := Resolve(m, start, es[..|es| - 1]);
      && (r.Found? <==> d.Some? && IsDir(m, d.value))
      && (r.Found? ==> r.ip == d.value && Key(r.name) == Key(es[|es| - 1]))
  }

  /** Some element of the path is to be looked up in an inode that is not allocated. */
  ghost predicate Dangles(m: Inodes, start: nat, es: seq<string>) {
    exists k | 0 <= k < |es| :: Resolve(m, start, es[..k]).Some? && Resolve(m, start, es[..k]).value !in m
  }

  /** Once a prefix leads nowhere, so does the path. */
  lemma {:induction false} NoWay(m: Inodes, start: nat, es: seq<string>, k: nat)
    requires k <= |es| && Resolve(m, start, es[..k]) == None
    ensures Resolve(m, start, es) == None
    decreases |es| - k
  {
    if k == |es| {
      assert es[..k] == es;
    } else {
      assert es[..k + 1][..k] == es[..k];
      NoWay(m, start, es, k + 1);
    }
  }

  /** What the walk knows at element k. */
  lemma {:induction false} Resolving(m: Inodes, start: nat, es: seq<string>, k: nat, ip: nat)
    requires k < |es| && Resolve(m, start, es[..k]) == Some(ip)
    ensures Resolve(m, start, es[..k + 1]) == Step(m, ip, es[k])
    ensures Step(m, ip, es[k]) == None ==> Resolve(m, start, es) == None
    ensures Step(m, ip, es[k]) == None && k + 1 < |es| ==> Resolve(m, start, es[..|es| - 1]) == None
  {
    hide Step;
    assert es[..k + 1][..k] == es[..k];
    if Step(m, ip, es[k]) == None {
      NoWay(m, start, es, k + 1);
      if k + 1 < |es| {
        assert es[..|es| - 1][..k + 1] == es[..k + 1];
        NoWay(m, start, es[..|es| - 1], k + 1);
      }
    }
  }

  /** The first k elements lead to ip, through allocated inodes. */
  ghost predicate Walked(m: Inodes, start: nat, es: seq<string>, k: nat, ip: nat) {
    && k <= |es| && Resolve(m, start, es[..k]) == Some(ip)
    && forall j | 0 <= j < k :: Resolve(m, start, es[..j]).Some? && Resolve(m, start, es[..j]).value in m
  }

  lemma {:induction false} WalkStart(m: Inodes, start: nat, es: seq<string>)
    ensures Walked(m, start, es, 0, start)
  {
    assert es[..0] == [];
  }

  lemma {:induction false} WalkLost(m: Inodes, start: nat, es: seq<string>, k: nat, ip: nat)
    requires Walked(m, start, es, k, ip) && k < |es| && ip !in m
    ensures Dangles(m, start, es)
  {
    hide Resolve;
    assert Resolve(m, start, es[..k]).value !in m;
  }

  /** A walk that ends at an allocated inode without a next step has passed no freed one. */
  lemma {:induction false} WalkNotLost(m: Inodes, start: nat, es: seq<string>, k: nat, ip: nat)
    requires Walked(m, start, es, k, ip)
    requires k < |es| ==> ip in m && (k + 1 == |es| || Resolve(m, start, es[..k + 1]) == None)
    ensures !Dangles(m, start, es)
  {
    forall j | 0 <= j < |es| && Resolve(m, start, es[..j]).Some?
      ensures Resolve(m, start, es[..j]).value in m
    {
      if j > k {
        assert es[..j][..k + 1] == es[..k + 1];
        NoWay(m, start, es[..j], k + 1);
      }
      hide Resolve;
    }
    hide Resolve;
  }

  lemma {:induction false} WalkFails(m: Inodes, start: nat, es: seq<string>, k: nat, ip: nat, parent: bool)
    requires Walked(m, start, es, k, ip) && k < |es| && ip in m && Step(m, ip, es[k]) == None
    requires parent && k + 1 == |es| ==> !IsDir(m, ip)
    ensures Agrees(m, start, es, parent, Missing) && !Dangles(m, start, es)
  {
    Resolving(m, start, es, k, ip);
    WalkNotLost(m, start, es, k, ip);
    hide Resolve, Step;
  }

  lemma {:induction false} WalkParent(m: Inodes, start: nat, es: seq<string>, ip: nat, name: string)
    requires es != [] && Walked(m, start, es, |es| - 1, ip) && IsDir(m, ip) && Key(name) == Key(es[|es| - 1])
    ensures Agrees(m, start, es, true, Found(ip, name)) && !Dangles(m, start, es)
  {
    hide Resolve, Key;
    WalkNotLost(m, start, es, |es| - 1, ip);
  }

  lemma {:induction false} WalkEnd(m: Inodes, start: nat, es: seq<string>, k: nat, ip: nat, parent: bool, name: string)
    requires Walked(m, start, es, k, ip) && k == |es| && (parent ==> es == [])
    ensures Agrees(m, start, es, parent, if parent then Missing else Found(ip, name)) && !Dangles(m, start, es)
  {
    assert es[..k] == es;
    hide Resolve;
    WalkNotLost(m, start, es, k, ip);
  }

  lemma {:induction false} WalkAtStart(m: Inodes, refs: map<nat, nat>, start: nat, cwd: nat, es: seq<string>, k: nat,
                                       ip: nat)
    requires Walked(m, start, es, k, ip) && es == [] && (start == ROOTINO || start == cwd)
    requires ROOTINO in m && RefsOk(m, refs) && Ref(refs, cwd) > 0
    ensures ip == start && ip in m
  {
    assert es[..k] == [];
  }

  lemma {:induction false} WalkStep(m: Inodes, start: nat, es: seq<string>, k: nat, ip: nat, s: nat)
    requires Dots(m) && Walked(m, start, es, k, ip) && k < |es|
    requires IsDir(m, ip) && Used(m[ip].slots, s) && Key(m[ip].slots[s].name) == Key(es[k])
    ensures Walked(m, start, es, k + 1, m[ip].slots[s].inum)
  {
    assert DotsAt(m, ip);
    hide Key, Dots;
    Bound(m[ip].slots, s);
    Resolving(m, start, es, k, ip);
    hide Distinct, Bindings, Resolve;
  }

  /** From an inode that has a link every path stays among allocated inodes that have links. */
  lemma {:induction false} LinkedWalk(m: Inodes, t: Shape, start: nat, es: seq<string>)
    requires Inv(m, t) && start in m && m[start].nlink >= 1
    ensures var r := Resolve(m, start, es); r.Some? ==> r.value in m && m[r.value].nlink >= 1
    decreases |es|
  {
    if es != [] {
      LinkedWalk(m, t, start, es[..|es| - 1]);
      var d := Resolve(m, start, es[..|es| - 1]);
      if d.Some? && Step(m, d.value, es[|es| - 1]).Some? {
        hide Key;
        var s := SlotOf(m[d.value].slots, Key(es[|es| - 1]));
        Leads(m, t, d.value, s);
      }
    }
  }

  /** So a walk that starts at the root, or at any inode with a link, is never lost. */
  lemma {:induction false} LinkedNeverLost(m: Inodes, t: Shape, start: nat, es: seq<string>)
    requires Inv(m, t) && start in m && m[start].nlink >= 1
    ensures !Dangles(m, start, es)
  {
    forall k | 0 <= k < |es| && Resolve(m, start, es[..k]).Some?
      ensures Resolve(m, start, es[..k]).value in m
    {
      LinkedWalk(m, t, start, es[..k]);
    }
    hide Resolve, Inv;
  }

  /** A removed directory that is still a process's directory, after its parent was removed and freed. */
  function Orphan(): Inodes {
    map[ROOTINO := Inode(Dir, 1, [Dirent(ROOTINO, "."), Dirent(ROOTINO, "..")]),
        5 := Inode(Dir, 0, [Dirent(5, "."), Dirent(7, "..")])]
  }

  /** There the path "../x" is lost, while every absolute path is not. */
  lemma {:induction false} OrphanLost(es: seq<string>)
    ensures Inv(Orphan(), Shape(map[ROOTINO := 0], map[])) && RefsOk(Orphan(), map[ROOTINO := 1, 5 := 1])
    ensures Dangles(Orphan(), 5, ["..", "x"]) && !Dangles(Orphan(), ROOTINO, es)
  {
    var m, t := Orphan(), Shape(map[ROOTINO := 0], map[]);
    OrphanInv();
    LinkedNeverLost(m, t, ROOTINO, es);
    hide Key, Inv, Distinct;
    var p := ["..", "x"];
    assert p[..1] == [".."] && [".."][..0] == [];
    OrphanUp();
    assert Resolve(m, 5, []) == Some(5);
    assert Resolve(m, 5, p[..1]) == Some(7);
  }

  lemma {:induction false} OrphanUp()
    ensures Step(Orphan(), 5, "..") == Some(7)
  {
    hide Key;
    DotsDiffer();
    var d := Orphan()[5].slots;
    assert Distinct(d);
    Bound(d, 1);
  }

  lemma {:induction false} OrphanInv()
    ensures Inv(Orphan(), Shape(map[ROOTINO := 0], map[]))
  {
    hide Key;
    DotsDiffer();
    var m := Orphan();
    assert Distinct(m[ROOTINO].slots) && Distinct(m[5].slots);
    NamedOne(m, ROOTINO, ROOTINO, 1);
    NamedNone(m, 5);
    hide Named;
  }

  /** Nothing changes but two inodes. */
  ghost predicate SameBut(m: Inodes, m': Inodes, p: nat, i: nat) {
    forall x | x != p && x != i :: (x in m' <==> x in m) && (x in m' ==> x in m && m'[x] == m[x])
  }

  lemma {:induction false} Leads(m: Inodes, t: Shape, d: nat, s: nat)
    requires Inv(m, t) && Live(m, d) && Used(m[d].slots, s)
    ensures m[d].slots[s].inum in m && m[m[d].slots[s].inum].nlink >= 1
  {
    assert DotsAt(m, d);
    if s > 0 { NamedHasLink(m, t, d, s); }
  }

  lemma {:induction false} WellFormed(m: Inodes, t: Shape, d: nat)
    requires Inv(m, t) && IsDir(m, d)
    ensures Distinct(m[d].slots) && d != 0
  {
    assert DotsAt(m, d);
  }

  lemma {:induction false} RootAllocated(m: Inodes, t: Shape)
    requires Inv(m, t)
    ensures ROOTINO in m
  {
  }

  lemma NoNames()
    ensures !HasName([], Key("."))
  {
  }

  /** After the first dot, the second is a new name. */
  lemma {:induction false} OneName(d: Slots)
    requires |d| == 1 && Key(d[0].name) == Key(".")
    ensures !HasName(d, Key(".."))
  {
    DotsDiffer();
  }

  /** Why unlink refuses: a dot, no such name, or a directory with entries. */
  ghost predicate Unremovable(m: Inodes, dp: nat, name: string) {
    dp in m && (Dot(name) || !HasName(m[dp].slots, Key(name)) || HoldsNonempty(m, dp, name))
  }

  lemma SameUnremovable(m: Inodes, dp: nat, name: string, other: string)
    requires Key(name) == Key(other)
    ensures Unremovable(m, dp, name) ==> Unremovable(m, dp, other)
  {
  }

  /** The inodes after slot s of dp was removed: without links and references its inode is freed. */
  function Unlinked(m: Inodes, refs: map<nat, nat>, dp: nat, s: nat): Inodes
    requires dp in m && s < |m[dp].slots| && m[dp].slots[s].inum in m
  {
    var i, m' := m[dp].slots[s].inum, Dropped(m, dp, s);
    if Ref(refs, i) == 0 && i in m' && m'[i].nlink == 0 then m' - {i} else m'
  }

  /** The name stands for a directory that is not empty. */
  ghost predicate HoldsNonempty(m: Inodes, dp: nat, name: string)
    requires dp in m
  {
    exists s: nat | Used(m[dp].slots, s) && Key(m[dp].slots[s].name) == Key(name) ::
      IsDir(m, m[dp].slots[s].inum) && !EmptyDir(m[m[dp].slots[s].inum].slots)
  }

  lemma {:induction false} Allocated(m: Inodes, t: Shape, i: nat)
    requires Inv(m, t) && i in m
    ensures i != 0
  {
    assert CountAt(m, i);
  }

  lemma {:induction false} PaddedKey(name: string)
    ensures Key(Padded(name, DIRSIZ)) == Key(name)
  {
    PaddedIs(name, DIRSIZ);
  }

  /** A free slot comes after the dots. */
  lemma {:induction false} FreeSlot(m: Inodes, t: Shape, d: nat, s: nat)
    requires Inv(m, t) && IsDir(m, d) && !Used(m[d].slots, s)
    ensures s >= 2
  {
    assert DotsAt(m, d);
  }

  lemma {:induction false} Apart(m: Inodes, t: Shape, p: nat, s: nat)
    requires Inv(m, t) && Droppable(m, p, s)
    ensures p != m[p].slots[s].inum
    ensures m[p].nlink >= if IsDir(m, m[p].slots[s].inum) then 2 else 1
  {
    if IsDir(m, m[p].slots[s].inum) { EmptyDirLinks(m, t, p, s); }
  }

  lemma SameKey(a: string, b: string)
    ensures Bounded(a, DIRSIZ) == Bounded(b, DIRSIZ) <==> Key(a) == Key(b)
  {
  }
}
