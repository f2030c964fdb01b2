/**
 A directory as src/fs.c keeps it, an array of slots that name inodes or are free, and the finite map it
 stands for.
 */
module Directory {
  import opened Names

  /** A slot; inode number 0 means it is free. */
  datatype Dirent = Dirent(inum: nat, name: string)

  type Slots = seq<Dirent>

  predicate Used(d: Slots, i: nat) {
    i < |d| && d[i].inum != 0
  }

  /** No two used slots have the same name as far as names are compared. */
  ghost predicate Distinct(d: Slots) {
    forall i: nat, j: nat | i < j < |d| && Used(d, i) && Used(d, j) :: Key(d[i].name) != Key(d[j].name)
  }

  lemma SlotUnique(d: Slots, i: nat, j: nat)
    requires Distinct(d) && Used(d, i) && Used(d, j) && Key(d[i].name) == Key(d[j].name)
    ensures i == j
  {
    assert i == j || i < j || j < i;
  }

  ghost predicate HasName(d: Slots, k: string) {
    exists i: nat | i < |d| :: Used(d, i) && Key(d[i].name) == k
  }

  /** The slot that has the name. */
  ghost function SlotOf(d: Slots, k: string): (i: nat)
    requires HasName(d, k)
    ensures Used(d, i) && Key(d[i].name) == k
  {
    var i: nat :| i < |d| && Used(d, i) && Key(d[i].name) == k; i
  }

  /** The map from names to inode numbers. */
  ghost function Bindings(d: Slots): (b: map<string, nat>)
    ensures forall k :: k in b <==> HasName(d, k)
    ensures forall k | k in b :: b[k] == d[SlotOf(d, k)].inum
  {
    var keys := set i: nat | i < |d| && Used(d, i) :: Key(d[i].name);
    map k | k in keys :: d[SlotOf(d, k)].inum
  }

  lemma Bound(d: Slots, i: nat)
    requires Distinct(d) && Used(d, i)
    ensures Key(d[i].name) in Bindings(d) && Bindings(d)[Key(d[i].name)] == d[i].inum
  {
    SlotUnique(d, i, SlotOf(d, Key(d[i].name)));
  }

  /** The slots after an entry was written at s, in place or at the end. */
  function Written(d: Slots, s: nat, e: Dirent): (r: Slots)
    requires s <= |d|
    ensures s < |r| && r[s] == e && |r| == if s < |d| then |d| else s + 1
    ensures forall i: nat | i < |d| && i != s :: r[i] == d[i]
  {
    if s < |d| then d[s := e] else d + [e]
  }

  /** Writing a new name into a free slot, or at the end, extends the map. */
  lemma {:induction false} WrittenBindings(d: Slots, s: nat, e: Dirent)
    requires Distinct(d) && s <= |d| && !Used(d, s) && e.inum != 0 && !HasName(d, Key(e.name))
    ensures Distinct(Written(d, s, e))
    ensures Bindings(Written(d, s, e)) == Bindings(d)[Key(e.name) := e.inum]
  {
    hide Key;
    var w := Written(d, s, e);
    forall i: nat, j: nat | i < j < |w| && Used(w, i) && Used(w, j)
      ensures Key(w[i].name) != Key(w[j].name)
    {
      assert i != s ==> Used(d, i);
      assert j != s ==> Used(d, j);
    }
    var b, c := Bindings(d), Bindings(w);
    forall k | k in b[Key(e.name) := e.inum]
      ensures k in c && c[k] == b[Key(e.name) := e.inum][k]
    {
      if k == Key(e.name) {
        Bound(w, s);
      } else {
        var i := SlotOf(d, k);
        Bound(d, i);
        Bound(w, i);
      }
    }
    forall k | k in c
      ensures k in b[Key(e.name) := e.inum]
    {
      var i := SlotOf(w, k);
      if i != s { Bound(d, i); }
    }
  }

  lemma {:induction false} ClearedDistinct(d: Slots, s: nat)
    requires Distinct(d) && s < |d|
    ensures Distinct(d[s := Dirent(0, "")])
  {
    hide Key;
    var w := d[s := Dirent(0, "")];
    forall i: nat, j: nat | i < j < |w| && Used(w, i) && Used(w, j)
      ensures Key(w[i].name) != Key(w[j].name)
    {
      assert Used(d, i) && Used(d, j);
    }
  }

  lemma {:induction false} ClearedAt(d: Slots, s: nat, k: string)
    requires Distinct(d) && Used(d, s)
    ensures var w := d[s := Dirent(0, "")];
            && (HasName(w, k) <==> HasName(d, k) && k != Key(d[s].name))
            && (HasName(w, k) ==> Bindings(w)[k] == Bindings(d)[k])
  {
    hide Key;
    var w := d[s := Dirent(0, "")];
    ClearedDistinct(d, s);
    if HasName(w, k) {
      var i := SlotOf(w, k);
      Bound(w, i);
      Bound(d, i);
      if k == Key(d[s].name) { SlotUnique(d, i, s); }
    }
    if HasName(d, k) && k != Key(d[s].name) {
      assert Used(w, SlotOf(d, k));
    }
  }

  /** Freeing a slot removes its name. */
  lemma {:induction false} ClearedBindings(d: Slots, s: nat)
    requires Distinct(d) && Used(d, s)
    ensures Distinct(d[s := Dirent(0, "")])
    ensures Bindings(d[s := Dirent(0, "")]) == Bindings(d) - {Key(d[s].name)}
  {
    ClearedDistinct(d, s);
    forall k
      ensures HasName(d[s := Dirent(0, "")], k) <==> HasName(d, k) && k != Key(d[s].name)
      ensures HasName(d[s := Dirent(0, "")], k) ==> Bindings(d[s := Dirent(0, "")])[k] == Bindings(d)[k]
    {
      ClearedAt(d, s, k);
    }
    hide Key, HasName;
  }
}
