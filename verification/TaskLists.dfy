/** A family of lists over the same task structures: list heads, one embedded
    list node per task, every node on at most one list. The state queues of
    zeos/sched.c are one such family (three heads), the sibling lists another
    (one head per task). */
module TaskLists {
  import opened Lists
  import opened Ring

  class TaskLists {
    const heads: seq<ListHead>
    const nodes: seq<ListHead>
    /** Which list holds which tasks. */
    ghost var lists: seq<seq<nat>>
    ghost const Repr: set<object>

    ghost function At(l: seq<nat>): (r: seq<ListHead>)
      requires forall i :: 0 <= i < |l| ==> l[i] < |nodes|
      ensures |r| == |l| && forall i :: 0 <= i < |l| ==> r[i] == nodes[l[i]]
    {
      seq(|l|, i requires 0 <= i < |l| => nodes[l[i]])
    }

    /** Heads and nodes are all different objects, and a node knows its task. */
    ghost predicate Objects()
    {
      && this in Repr
      && (forall h :: 0 <= h < |heads| ==> heads[h] in Repr)
      && (forall t :: 0 <= t < |nodes| ==> nodes[t] in Repr)
      && Distinct(heads + nodes)
      && (forall t :: 0 <= t < |nodes| ==> nodes[t].owner == t)
    }

    ghost predicate InRange(lists: seq<seq<nat>>) {
      |lists| == |heads| && forall h, i :: 0 <= h < |lists| && 0 <= i < |lists[h]| ==> lists[h][i] < |nodes|
    }

    ghost predicate Rings()
      requires Objects()
      reads Repr
      requires InRange(lists)
    {
      forall h :: 0 <= h < |heads| ==> IsRing(heads[h], At(lists[h]))
    }

    ghost predicate Unlinked()
      requires Objects()
      reads Repr
    {
      forall t :: 0 <= t < |nodes| && !Listed(lists, t) ==> nodes[t].next == null && nodes[t].prev == null
    }

    ghost predicate Valid()
      reads this, Repr
    {
      Objects() && InRange(lists) && Apart(lists) && Rings() && Unlinked()
    }

    /** `heads` empty lists and `nodes` unlinked nodes. */
    constructor (nheads: nat, nnodes: nat)
      ensures Valid() && |heads| == nheads && |nodes| == nnodes
      ensures lists == seq(nheads, _ => [])
      ensures fresh(Repr)
    {
      var hs: seq<ListHead>, ns: seq<ListHead> := [], [];
      ghost var objects: set<object> := {};
      while |hs| < nheads
        invariant |hs| <= nheads && Distinct(hs) && fresh(objects)
        invariant forall i :: 0 <= i < |hs| ==> hs[i] in objects && IsRing(hs[i], [])
      {
        var x := new ListHead(|hs|);
        x.Init();
        hs, objects := hs + [x], objects + {x};
      }
      assert hs + ns == hs;
      while |ns| < nnodes
        invariant |ns| <= nnodes && Distinct(hs + ns) && fresh(objects)
        invariant forall i :: 0 <= i < |hs| ==> hs[i] in objects && IsRing(hs[i], [])
        invariant forall t :: 0 <= t < |ns| ==> ns[t] in objects && ns[t].owner == t && ns[t].next == null && ns[t].prev == null
      {
        var x := new ListHead(|ns|);
        assert hs + (ns + [x]) == (hs + ns) + [x];
        ns, objects := ns + [x], objects + {x};
      }
      heads, nodes := hs, ns;
      lists := seq(nheads, _ => []);
      Repr := {this} + objects;
      new;
      assert forall h :: 0 <= h < |heads| ==> At(lists[h]) == [];
    }

    /** `INIT_LIST_HEAD` of an empty list. */
    method InitHead(h: nat)
      requires Valid() && h < |heads| && lists[h] == []
      modifies heads, nodes
      ensures Valid()
    {
      ghost var ls := lists;
      forall g | 0 <= g < |heads| && g != h
        ensures heads[g] != heads[h] && heads[h] !in At(ls[g])
      {
        Footprints(ls, h, g);
      }
      forall u | 0 <= u < |nodes|
        ensures nodes[u] != heads[h]
      {
        assert (heads + nodes)[h] == heads[h] && (heads + nodes)[|heads| + u] == nodes[u];
      }
      heads[h].Init();
      assert At(ls[h]) == [];
      forall g | 0 <= g < |heads| && g != h
        ensures IsRing(heads[g], At(ls[g]))
      {
        assert old(IsRing(heads[g], At(lists[g])));
      }
    }

    /** The objects of one list share nothing with those of another, nor with an
        unlisted node. */
    lemma Footprints(lists: seq<seq<nat>>, h: nat, g: nat)
      requires Objects() && InRange(lists) && Apart(lists) && h < |heads| && g < |heads| && h != g
      ensures heads[g] != heads[h] && heads[g] !in At(lists[h]) && heads[h] !in At(lists[g])
      ensures forall x :: x in At(lists[h]) ==> x !in At(lists[g])
    {
      var all := heads + nodes;
      assert all[h] == heads[h] && all[g] == heads[g];
      forall i | 0 <= i < |lists[h]|
        ensures At(lists[h])[i] != heads[g] && At(lists[h])[i] !in At(lists[g])
      {
        assert all[|heads| + lists[h][i]] == nodes[lists[h][i]];
        forall j | 0 <= j < |lists[g]|
          ensures At(lists[g])[j] != At(lists[h])[i]
        {
          assert lists[h][i] in lists[h] && lists[g][j] in lists[g];
          assert nodes[lists[h][i]].owner == lists[h][i] && nodes[lists[g][j]].owner == lists[g][j];
        }
      }
      forall j | 0 <= j < |lists[g]|
        ensures At(lists[g])[j] != heads[h]
      {
        assert all[|heads| + lists[g][j]] == nodes[lists[g][j]];
      }
    }

    lemma NodeIsNew(lists: seq<seq<nat>>, h: nat, t: nat)
      requires Objects() && InRange(lists) && h < |heads| && t < |nodes| && !Listed(lists, t)
      ensures nodes[t] != heads[h] && nodes[t] !in At(lists[h])
    {
      assert (heads + nodes)[h] == heads[h] && (heads + nodes)[|heads| + t] == nodes[t];
      forall i | 0 <= i < |lists[h]|
        ensures At(lists[h])[i] != nodes[t]
      {
        assert lists[h][i] in lists[h];
        assert nodes[lists[h][i]].owner == lists[h][i];
      }
    }

    /** The objects of list `g` are none of those a change to list `h` touches. */
    lemma OtherRing(ls: seq<seq<nat>>, h: nat, t: nat, g: nat)
      requires Objects() && InRange(ls) && Apart(ls) && h < |heads| && g < |heads| && g != h && t < |nodes|
      requires t in ls[h] || !Listed(ls, t)
      ensures var c := [heads[g]] + At(ls[g]);
              forall i :: 0 <= i < |c| ==> c[i] != heads[h] && c[i] != nodes[t] && c[i] !in At(ls[h])
    {
      Footprints(ls, h, g);
      if t in ls[h] {
        var i :| 0 <= i < |ls[h]| && ls[h][i] == t;
        assert At(ls[h])[i] == nodes[t];
      } else {
        NodeIsNew(ls, g, t);
      }
      assert (heads + nodes)[g] == heads[g];
      forall i | 0 <= i < |ls[g]|
        ensures At(ls[g])[i] in At(ls[g])
      {
      }
    }

    lemma OtherNode(ls: seq<seq<nat>>, h: nat, t: nat, u: nat)
      requires Objects() && InRange(ls) && h < |heads| && t < |nodes| && u < |nodes| && u != t && !Listed(ls, u)
      ensures nodes[u] in heads + nodes && nodes[u] != heads[h] && nodes[u] != nodes[t] && nodes[u] !in At(ls[h])
    {
      NodeIsNew(ls, h, u);
      assert nodes[u].owner == u && nodes[t].owner == t;
      assert (heads + nodes)[|heads| + u] == nodes[u];
    }

    lemma Separate(ls: seq<seq<nat>>, h: nat, t: nat)
      requires Objects() && InRange(ls) && Apart(ls) && h < |heads| && t < |nodes|
      requires t in ls[h] || !Listed(ls, t)
      ensures forall g :: 0 <= g < |heads| && g != h ==>
                var c := [heads[g]] + At(ls[g]);
                forall i :: 0 <= i < |c| ==> c[i] != heads[h] && c[i] != nodes[t] && c[i] !in At(ls[h])
      ensures forall u :: 0 <= u < |nodes| && u != t && !Listed(ls, u) ==>
                nodes[u] != heads[h] && nodes[u] != nodes[t] && nodes[u] !in At(ls[h])
    {
      forall g | 0 <= g < |heads| && g != h
        ensures var c := [heads[g]] + At(ls[g]);
                forall i :: 0 <= i < |c| ==> c[i] != heads[h] && c[i] != nodes[t] && c[i] !in At(ls[h])
      {
        OtherRing(ls, h, t, g);
      }
      forall u | 0 <= u < |nodes| && u != t && !Listed(ls, u)
        ensures nodes[u] != heads[h] && nodes[u] != nodes[t] && nodes[u] !in At(ls[h])
      {
        OtherNode(ls, h, t, u);
      }
    }

    /** Linking node `t` to list `h` leaves all other rings as they were. */
    method Link(h: nat, t: nat, front: bool)
      requires Valid() && h < |heads| && t < |nodes| && !Listed(lists, t)
      modifies heads[h], nodes[t], At(lists[h])
      ensures IsRing(heads[h], if front then [nodes[t]] + At(lists[h]) else At(lists[h]) + [nodes[t]])
      ensures forall g :: 0 <= g < |heads| && g != h ==> IsRing(heads[g], At(lists[g]))
      ensures forall u :: 0 <= u < |nodes| && u != t && !Listed(lists, u) ==> nodes[u].next == null && nodes[u].prev == null
    {
      NodeIsNew(lists, h, t);
      Separate(lists, h, t);
      AddEither(nodes[t], heads[h], front, At(lists[h]));
      forall g | 0 <= g < |heads| && g != h
        ensures IsRing(heads[g], At(lists[g]))
      {
        assert old(IsRing(heads[g], At(lists[g])));
      }
    }

    /** `list_add_tail` of the node of task `t` to list `h`. */
    method Append(h: nat, t: nat)
      requires Valid() && h < |heads| && t < |nodes| && !Listed(lists, t)
      modifies Repr
      ensures Valid() && lists == old(lists)[h := old(lists)[h] + [t]]
    {
      ghost var ls := lists;
      Link(h, t, false);
      lists := ls[h := ls[h] + [t]];
      InsertMembers(ls, h, t, ls[h] + [t]);
      assert At(lists[h]) == At(ls[h]) + [nodes[t]];
    }

    /** `list_add` of the node of task `t` to list `h`. */
    method Prepend(h: nat, t: nat)
      requires Valid() && h < |heads| && t < |nodes| && !Listed(lists, t)
      modifies Repr
      ensures Valid() && lists == old(lists)[h := [t] + old(lists)[h]]
    {
      ghost var ls := lists;
      Link(h, t, true);
      lists := ls[h := [t] + ls[h]];
      InsertMembers(ls, h, t, [t] + ls[h]);
      assert At(lists[h]) == [nodes[t]] + At(ls[h]);
    }

    /** Unlinking node `t`, at position `k` of list `h`, leaves all other rings as they were. */
    method Unlink(t: nat, ghost h: nat, ghost k: nat)
      requires Valid() && h < |heads| && k < |lists[h]| && lists[h][k] == t
      modifies heads, nodes
      ensures IsRing(heads[h], Removed(At(lists[h]), k))
      ensures forall g :: 0 <= g < |heads| && g != h ==> IsRing(heads[g], At(lists[g]))
      ensures forall u :: 0 <= u < |nodes| && (u == t || !Listed(lists, u)) ==> nodes[u].next == null && nodes[u].prev == null
    {
      Separate(lists, h, t);
      Del(nodes[t], heads[h], At(lists[h]), k);
      forall g | 0 <= g < |heads| && g != h
        ensures IsRing(heads[g], At(lists[g]))
      {
        assert old(IsRing(heads[g], At(lists[g])));
      }
    }

    /** `list_del` of the node of task `t`, at position `k` of list `h`. */
    method Remove(t: nat, ghost h: nat, ghost k: nat)
      requires Valid() && h < |heads| && k < |lists[h]| && lists[h][k] == t
      modifies Repr
      ensures Valid() && lists == old(lists)[h := Removed(old(lists)[h], k)]
    {
      ghost var ls := lists;
      Unlink(t, h, k);
      lists := ls[h := Removed(ls[h], k)];
      RemovedMembers(ls[h], k);
      forall u: nat | u != t
        ensures Listed(lists, u) <==> Listed(ls, u)
      {
        if g :| 0 <= g < |ls| && u in ls[g] {
          assert u in lists[g];
        }
      }
      assert At(lists[h]) == Removed(At(ls[h]), k);
    }

    /** `list_empty` */
    method Empty(h: nat) returns (b: bool)
      requires Valid() && h < |heads|
      ensures b <==> lists[h] == []
    {
      b := IsEmpty(heads[h], At(lists[h]));
    }

    /** `list_head_to_task_struct(list_first(...))` */
    method FirstTask(h: nat) returns (t: nat)
      requires Valid() && h < |heads| && lists[h] != []
      ensures t == lists[h][0] && t < |nodes|
    {
      var e := First(heads[h], At(lists[h]));
      t := e.owner;
    }

    /** `list_first` and `list_del` of what it returns. */
    method TakeFirst(h: nat) returns (t: nat)
      requires Valid() && h < |heads| && lists[h] != []
      modifies Repr
      ensures Valid() && t == old(lists)[h][0] && t < |nodes|
      ensures lists == old(lists)[h := old(lists)[h][1..]]
    {
      ghost var ls := lists;
      t := FirstTask(h);
      Remove(t, h, 0);
      assert Removed(ls[h], 0) == ls[h][1..];
    }

    /** Whether the node is linked: what reading through its pointers depends on. */
    method IsLinked(t: nat) returns (b: bool)
      requires Valid() && t < |nodes|
      ensures b <==> Listed(lists, t)
    {
      b := nodes[t].next != null;
      if h :| 0 <= h < |lists| && t in lists[h] {
        var k :| 0 <= k < |lists[h]| && lists[h][k] == t;
        ghost var c := [heads[h]] + At(lists[h]);
        assert c[k + 1].next == c[After(k + 1, |c|)];
      }
    }

    /** `list_size` started from the node of task `t`: everybody else on its list,
        and the head. */
    method SizeFrom(t: nat, ghost h: nat, ghost k: nat) returns (n: nat)
      requires Valid() && h < |heads| && k < |lists[h]| && lists[h][k] == t
      ensures n == |lists[h]|
    {
      ghost var s := At(lists[h]);
      RingRotates(heads[h], s, k);
      n := Size(nodes[t], s[k + 1..] + [heads[h]] + s[..k]);
    }

    /** The `next` of a listed node is another node or a head, never null: walking a
        list visits its tasks in order. `k` counts the ones passed. */
    method TaskAfter(h: nat, t: nat, ghost k: nat) returns (u: nat, end: bool)
      requires Valid() && h < |heads| && k < |lists[h]| && lists[h][k] == t
      ensures end <==> k + 1 == |lists[h]|
      ensures !end ==> u == lists[h][k + 1]
    {
      ghost var c := [heads[h]] + At(lists[h]);
      assert c[k + 1].next == c[After(k + 1, |c|)];
      assert k + 1 < |lists[h]| ==> c[0] != c[k + 2];
      var e := nodes[t].next;
      u := e.owner;
      end := e == heads[h];
    }
  }
}
