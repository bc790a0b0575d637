/** Sequences as lists without repetition, and families of lists that share no member. */
module Lists {

  ghost predicate Distinct<T>(s: seq<T>) {
    forall i, j :: 0 <= i < j < |s| ==> s[i] != s[j]
  }

  ghost function Inserted<T>(c: seq<T>, k: nat, x: T): (r: seq<T>)
    requires k < |c|
    ensures |r| == |c| + 1 && r[k + 1] == x
    ensures forall i :: 0 <= i <= k ==> r[i] == c[i]
    ensures forall i :: k + 1 < i < |r| ==> r[i] == c[i - 1]
  {
    c[..k + 1] + [x] + c[k + 1..]
  }

  ghost function Removed<T>(c: seq<T>, k: nat): (r: seq<T>)
    requires k < |c|
    ensures |r| == |c| - 1
    ensures forall i :: 0 <= i < k ==> r[i] == c[i]
    ensures forall i :: k <= i < |r| ==> r[i] == c[i + 1]
  {
    c[..k] + c[k + 1..]
  }

  /** No task is listed twice, on one list or on two. */
  ghost predicate Apart(lists: seq<seq<nat>>) {
    && (forall q :: 0 <= q < |lists| ==> Distinct(lists[q]))
    && (forall q, p, t :: 0 <= q < |lists| && 0 <= p < |lists| && q != p && t in lists[q] ==> t !in lists[p])
  }

  ghost predicate Listed(lists: seq<seq<nat>>, t: nat) {
    exists q :: 0 <= q < |lists| && t in lists[q]
  }

  /** The list without its first `t`. */
  function Without(q: seq<nat>, t: nat): (r: seq<nat>)
    ensures t !in q ==> r == q
    ensures t in q ==> |r| == |q| - 1
    ensures forall i :: 0 <= i < |r| ==> r[i] in q
  {
    if q == [] then [] else if q[0] == t then q[1..] else [q[0]] + Without(q[1..], t)
  }

  /** `t` off every list. */
  function Unlink(lists: seq<seq<nat>>, t: nat): (r: seq<seq<nat>>)
    ensures |r| == |lists|
    ensures forall q :: 0 <= q < |lists| ==> r[q] == Without(lists[q], t)
  {
    seq(|lists|, q requires 0 <= q < |lists| => Without(lists[q], t))
  }

  lemma {:induction false} WithoutMultiset(q: seq<nat>, t: nat)
    requires t in q
    ensures multiset(Without(q, t)) == multiset(q) - multiset{t}
  {
    assert q == [q[0]] + q[1..];
    if q[0] != t {
      WithoutMultiset(q[1..], t);
    }
  }

  lemma {:induction false} WithoutRemoves(q: seq<nat>, k: nat)
    requires k < |q| && Distinct(q)
    ensures Without(q, q[k]) == Removed(q, k)
  {
    if k > 0 {
      WithoutRemoves(q[1..], k - 1);
    }
  }

  /** Unlinking a task removes it from the one list it is on. */
  lemma UnlinkRemoves(lists: seq<seq<nat>>, h: nat, k: nat)
    requires Apart(lists) && h < |lists| && k < |lists[h]|
    ensures Unlink(lists, lists[h][k]) == lists[h := Removed(lists[h], k)]
  {
    var t := lists[h][k];
    assert t in lists[h];
    WithoutRemoves(lists[h], k);
  }

  lemma RemovedMembers(q: seq<nat>, k: nat)
    requires k < |q| && Distinct(q)
    ensures Distinct(Removed(q, k))
    ensures forall u :: u in Removed(q, k) <==> u in q && u != q[k]
  {
    forall u
      ensures u in Removed(q, k) <==> u in q && u != q[k]
    {
      if u in q && u != q[k] {
        var i :| 0 <= i < |q| && q[i] == u;
        assert Removed(q, k)[if i < k then i else i - 1] == u;
      }
    }
  }

  /** Who is on which list after an unlink. */
  lemma UnlinkMembers(lists: seq<seq<nat>>, t: nat)
    requires Apart(lists)
    ensures Apart(Unlink(lists, t)) && !Listed(Unlink(lists, t), t)
    ensures forall q, u :: 0 <= q < |lists| ==> (u in Unlink(lists, t)[q] <==> u in lists[q] && u != t)
  {
    var r := Unlink(lists, t);
    forall q | 0 <= q < |lists|
      ensures Distinct(r[q]) && forall u :: u in r[q] <==> u in lists[q] && u != t
    {
      if t in lists[q] {
        var k :| 0 <= k < |lists[q]| && lists[q][k] == t;
        WithoutRemoves(lists[q], k);
        RemovedMembers(lists[q], k);
      }
    }
  }

  /** Who is on which list after an insertion. */
  lemma InsertMembers(lists: seq<seq<nat>>, h: nat, t: nat, l: seq<nat>)
    requires Apart(lists) && h < |lists| && !Listed(lists, t) && (l == lists[h] + [t] || l == [t] + lists[h])
    ensures Apart(lists[h := l])
    ensures forall q, u :: 0 <= q < |lists| ==> (u in lists[h := l][q] <==> u in lists[q] || (q == h && u == t))
  {
    assert t !in lists[h];
    assert Distinct(l) by {
      assert forall i :: 0 <= i < |lists[h]| ==> lists[h][i] in lists[h];
    }
  }
}
