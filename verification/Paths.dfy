/**
 What paths mean in the tree itself: every live directory has an absolute path, a relative path means what
 it means behind the absolute path of the current directory, and a name alone is looked up there.
 */
module Paths {
  import opened Common
  import opened Names
  import opened Directory
  import opened DirTree
  import opened Sysfile

  /** What Namex owes for a path. */
  ghost predicate Answers(m: Inodes, path: string, cwd: nat, parent: bool, r: Walk) {
    && (r.Lost? <==> Dangles(m, Start(path, cwd), Elements(path)))
    && (!r.Lost? ==> Agrees(m, Start(path, cwd), Elements(path), parent, r))
  }

  /** One lookup after the other. */
  lemma {:induction false} ResolveConcat(m: Inodes, start: nat, a: seq<string>, b: seq<string>)
    ensures Resolve(m, start, a + b)
            == if Resolve(m, start, a).Some? then Resolve(m, Resolve(m, start, a).value, b) else None
    decreases |b|
  {
    hide Step;
    if b == [] {
      assert a + b == a;
    } else {
      var n := |b| - 1;
      ResolveConcat(m, start, a, b[..n]);
      assert (a + b)[..|a + b| - 1] == a + b[..n];
      ResolveLast(m, start, a + b);
      if Resolve(m, start, a).Some? { ResolveLast(m, Resolve(m, start, a).value, b); }
      hide Resolve;
    }
  }

  lemma ResolveLast(m: Inodes, start: nat, es: seq<string>)
    requires es != []
    ensures var d := Resolve(m, start, es[..|es| - 1]);
            Resolve(m, start, es) == if d == None then None else Step(m, d.value, es[|es| - 1])
  {
  }

  // ------------------------------------------------------------ the way down to a directory

  /** The names on the way from the root to a live directory, by its place in its parent and so on up. */
  ghost function Trail(m: Inodes, t: Shape, d: nat): (es: seq<string>)
    requires Inv(m, t) && Live(m, d)
    decreases if d in t.depth then t.depth[d] else 0
  {
    Placed(m, t, d);
    if d == ROOTINO then [] else Trail(m, t, Parent(m, d)) + [Key(m[Parent(m, d)].slots[t.place[d]].name)]
  }

  /** The place of a live directory in its parent. */
  lemma {:induction false} Placed(m: Inodes, t: Shape, d: nat)
    requires Inv(m, t) && Live(m, d)
    ensures d in t.depth && Live(m, Parent(m, d)) && Distinct(m[Parent(m, d)].slots)
    ensures d != ROOTINO ==>
              && d in t.place && Parent(m, d) in t.depth && t.depth[Parent(m, d)] < t.depth[d]
              && Used(m[Parent(m, d)].slots, t.place[d]) && m[Parent(m, d)].slots[t.place[d]].inum == d
  {
    assert UpAt(m, t, d) && DotsAt(m, Parent(m, d)) && DotsAt(m, d);
  }

  lemma {:induction false} KeyTwice(s: string)
    ensures Key(Key(s)) == Key(s)
  {
    var k := Key(s);
    assert forall i: nat | i < |k| :: k[i] in k;
    BoundedAt(k, DIRSIZ, |k|);
    assert k[..|k|] == k && k[|k|..] == "";
  }

  /** Looking those names up leads to the directory. */
  lemma {:induction false} TrailLeads(m: Inodes, t: Shape, d: nat)
    requires Inv(m, t) && Live(m, d)
    ensures Resolve(m, ROOTINO, Trail(m, t, d)) == Some(d)
    decreases if d in t.depth then t.depth[d] else 0
  {
    hide Inv;
    Placed(m, t, d);
    if d != ROOTINO {
      var p, s := Parent(m, d), t.place[d];
      TrailLeads(m, t, p);
      var es, name := Trail(m, t, p), m[p].slots[s].name;
      assert Trail(m, t, d) == es + [Key(name)];
      KeyTwice(name);
      Bound(m[p].slots, s);
      assert Step(m, p, Key(name)) == Some(d) by { hide Key, Distinct; }
      assert (es + [Key(name)])[..|es|] == es;
      ResolveLast(m, ROOTINO, es + [Key(name)]);
      hide Resolve, Step;
    }
  }

  lemma {:induction false} TrailLegal(m: Inodes, t: Shape, d: nat)
    requires Inv(m, t) && Live(m, d) && Spelled(m)
    ensures forall i | 0 <= i < |Trail(m, t, d)| :: Legal(Trail(m, t, d)[i]) && '\0' !in Trail(m, t, d)[i]
    decreases if d in t.depth then t.depth[d] else 0
  {
    hide Inv, Legal, Key, HasName;
    Placed(m, t, d);
    if d != ROOTINO {
      TrailLegal(m, t, Parent(m, d));
      LegalAt(m, Parent(m, d), t.place[d]);
    }
  }

  lemma LegalAt(m: Inodes, d: nat, s: nat)
    requires Spelled(m) && IsDir(m, d) && Used(m[d].slots, s)
    ensures Legal(Key(m[d].slots[s].name)) && '\0' !in Key(m[d].slots[s].name)
  {
    hide Key, Legal;
    var k := Key(m[d].slots[s].name);
    assert HasName(m[d].slots, k);
    NoNul(m[d].slots[s].name);
  }

  lemma NoNul(s: string)
    ensures '\0' !in Key(s)
  {
  }

  // ------------------------------------------------------------ absolute paths

  /** The path of a live directory: its names, each behind a slash. */
  ghost function PathOf(m: Inodes, t: Shape, d: nat): string
    requires Inv(m, t) && Live(m, d)
  {
    if Trail(m, t, d) == [] then "/" else Joined(Trail(m, t, d))
  }

  lemma {:induction false} JoinedNul(es: seq<string>)
    requires forall i | 0 <= i < |es| :: '\0' !in es[i]
    ensures '\0' !in Joined(es)
  {
    if es != [] { JoinedNul(es[1..]); }
  }

  lemma {:induction false} PathElements(m: Inodes, t: Shape, d: nat)
    requires Inv(m, t) && Live(m, d) && Spelled(m)
    ensures var p := PathOf(m, t, d);
            p != "" && p[0] == '/' && '\0' !in p && Elements(p) == Trail(m, t, d)
  {
    hide Inv, Spelled, Trail, Legal;
    var es := Trail(m, t, d);
    TrailLegal(m, t, d);
    if es != [] {
      JoinedNul(es);
      JoinedStart(es);
      ElementsJoined(es);
      JoinedFirst(es);
      hide Joined, Elements;
    } else {
      var p := "/";
      assert p[1..] == "" && Elements(p) == [];
    }
  }

  /** From whatever current directory, namex takes the absolute path of a live directory to it. */
  lemma {:induction false} AbsolutePath(m: Inodes, t: Shape, d: nat, cwd: nat, r: Walk)
    requires Inv(m, t) && Live(m, d) && Spelled(m) && Answers(m, PathOf(m, t, d), cwd, false, r)
    ensures '\0' !in PathOf(m, t, d) && r.Found? && r.ip == d
  {
    hide Inv, Spelled, Trail, Resolve, Elements, PathOf, Dangles;
    PathElements(m, t, d);
    TrailLeads(m, t, d);
    RootLive(m, t);
    LinkedNeverLost(m, t, ROOTINO, Trail(m, t, d));
  }

  lemma RootLive(m: Inodes, t: Shape)
    requires Inv(m, t)
    ensures Live(m, ROOTINO)
  {
  }

  // ------------------------------------------------------------ relative paths

  /**
   A path that does not begin with a slash means, in a live current directory, what it means behind that
   directory's absolute path in any other: neither walk is lost, and both find the same or nothing.
   */
  lemma {:induction false} RelativePath(m: Inodes, t: Shape, path: string, cwd: nat, other: nat,
                                        r: Walk, r': Walk)
    requires Inv(m, t) && Live(m, cwd) && Spelled(m) && (path == "" || path[0] != '/')
    requires Answers(m, path, cwd, false, r) && Answers(m, PathOf(m, t, cwd) + "/" + path, other, false, r')
    ensures !r.Lost? && !r'.Lost? && (r.Found? <==> r'.Found?) && (r.Found? ==> r.ip == r'.ip)
  {
    hide Inv, Spelled, Trail, Resolve, Elements, PathOf, Dangles;
    var abs, es := PathOf(m, t, cwd), Elements(path);
    PathElements(m, t, cwd);
    TrailLeads(m, t, cwd);
    ElementsConcat(abs, path);
    assert (abs + "/" + path)[0] == '/';
    ResolveConcat(m, ROOTINO, Trail(m, t, cwd), es);
    RootLive(m, t);
    LinkedNeverLost(m, t, ROOTINO, Trail(m, t, cwd) + es);
    LinkedNeverLost(m, t, cwd, es);
  }

  /** A legal name alone is looked up in the current directory, be it live or removed. */
  lemma {:induction false} NameInCwd(m: Inodes, t: Shape, name: string, cwd: nat, r: Walk)
    requires Inv(m, t) && IsDir(m, cwd) && Legal(name) && Answers(m, name, cwd, false, r)
    ensures !r.Lost? && (r.Found? <==> HasName(m[cwd].slots, Key(name)))
    ensures r.Found? ==> r.ip == Bindings(m[cwd].slots)[Key(name)]
  {
    ElementsOne(name);
    assert Start(name, cwd) == cwd by { assert name[0] in name; }
    hide Inv, Elements, Legal, Key, HasName;
    assert [name][..0] == [] && Resolve(m, cwd, []) == Some(cwd);
    ResolveLast(m, cwd, [name]);
  }

  /** The parent a path names is the directory it leads to without its last element, and that is the name. */
  lemma {:induction false} ParentIs(m: Inodes, path: string, name: string, cwd: nat, r: Walk, r': Walk)
    requires Legal(name) && path != "" && Answers(m, path + "/" + name, cwd, true, r)
    requires Answers(m, path, cwd, false, r') && r'.Found? && IsDir(m, r'.ip) && !r.Lost?
    ensures r.Found? && r.ip == r'.ip && Key(r.name) == Key(name)
  {
    hide Resolve, Elements, Dangles, Key;
    ElementsConcat(path, name);
    ElementsOne(name);
    assert (path + "/" + name)[0] == path[0];
    var es := Elements(path) + [name];
    assert es[..|es| - 1] == Elements(path) && es[|es| - 1] == name;
  }

  // ------------------------------------------------------------ when the calls succeed

  /** The path of a name in a live directory leads to the directory first, then to the name in it. */
  lemma {:induction false} EntryPath(m: Inodes, t: Shape, d: nat, name: string, cwd: nat)
    requires Inv(m, t) && Live(m, d) && Spelled(m) && Legal(name)
    ensures var p := PathOf(m, t, d) + "/" + name; var start, es := Start(p, cwd), Elements(p);
            && es != [] && Last(es) == name && ParentOf(m, start, es) == Some(d) && !Dangles(m, start, es)
            && Resolve(m, start, es) == Step(m, d, name)
  {
    hide Inv, Spelled, Trail, Resolve, Elements, PathOf, Dangles, Step, Legal;
    var abs := PathOf(m, t, d);
    PathElements(m, t, d);
    TrailLeads(m, t, d);
    ElementsConcat(abs, name);
    ElementsOne(name);
    assert (abs + "/" + name)[0] == '/';
    var es := Trail(m, t, d) + [name];
    assert es[..|es| - 1] == Trail(m, t, d);
    ResolveLast(m, ROOTINO, es);
    RootLive(m, t);
    LinkedNeverLost(m, t, ROOTINO, es);
  }

  /** sys_link can give any file a second name, in any live directory that does not have it. */
  lemma {:induction false} LinkCan(m: Inodes, t: Shape, d: nat, name: string, d': nat, name': string, cwd: nat)
    requires Inv(m, t) && Spelled(m) && Live(m, d) && Live(m, d') && Legal(name) && Legal(name')
    requires HasName(m[d].slots, Key(name)) && !HasName(m[d'].slots, Key(name'))
    requires !IsDir(m, Bindings(m[d].slots)[Key(name)])
    ensures var p, p' := PathOf(m, t, d) + "/" + name, PathOf(m, t, d') + "/" + name';
            && LinkWorks(m, Start(p, cwd), Elements(p), Start(p', cwd), Elements(p'))
            && !LinkPanics(m, Start(p, cwd), Elements(p), Start(p', cwd), Elements(p'))
  {
    EntryPath(m, t, d, name, cwd);
    EntryPath(m, t, d', name', cwd);
    var s := SlotOf(m[d].slots, Key(name));
    Leads(m, t, d, s);
    hide Inv, Spelled, Resolve, Elements, PathOf, Dangles, Legal, Key, HasName, ParentOf;
  }

  /** sys_unlink can remove every name of a live directory but the dots and directories with entries. */
  lemma {:induction false} UnlinkCan(m: Inodes, t: Shape, d: nat, name: string, cwd: nat)
    requires Inv(m, t) && Spelled(m) && Live(m, d) && Legal(name) && !Dot(name) && HasName(m[d].slots, Key(name))
    requires var i := Bindings(m[d].slots)[Key(name)]; IsDir(m, i) ==> EmptyDir(m[i].slots)
    ensures var p := PathOf(m, t, d) + "/" + name; var start, es := Start(p, cwd), Elements(p);
            !Dangles(m, start, es) && ParentOf(m, start, es) == Some(d) && !Unremovable(m, d, Last(es))
  {
    EntryPath(m, t, d, name, cwd);
    WellFormed(m, t, d);
    hide Inv, Spelled, Resolve, Elements, PathOf, Dangles, Legal, Key, ParentOf, EmptyDir;
    if HoldsNonempty(m, d, name) {
      var s: nat :| Used(m[d].slots, s) && Key(m[d].slots[s].name) == Key(name)
                    && IsDir(m, m[d].slots[s].inum) && !EmptyDir(m[m[d].slots[s].inum].slots);
      Bound(m[d].slots, s);
      assert false;
    }
  }

  /** create can make every new name in a live directory while an inode is free. */
  lemma {:induction false} CreateCan(m: Inodes, t: Shape, d: nat, name: string, kind: Kind, ninodes: nat,
                                     i: nat, cwd: nat)
    requires Inv(m, t) && Spelled(m) && Live(m, d) && Legal(name) && !HasName(m[d].slots, Key(name))
    requires 1 <= i < ninodes && i !in m
    ensures var p := PathOf(m, t, d) + "/" + name; var start, es := Start(p, cwd), Elements(p);
            && !Dangles(m, start, es) && ParentOf(m, start, es) == Some(d)
            && !CreatePanics(m, d, Last(es), ninodes) && !Unopened(m, d, Last(es), kind)
  {
    EntryPath(m, t, d, name, cwd);
    hide Inv, Spelled, Resolve, Elements, PathOf, Dangles, Legal, Key, ParentOf;
  }
}
