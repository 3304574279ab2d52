/** The order `initializeModules` visits modules in: `Array.prototype.sort` (stable)
    with the comparator `(a.priority || 100) - (b.priority || 100)`. */
module Priority {
  import opened Wrappers

  /** `priority || 100`: an unset priority and a priority of 0 both count as 100. */
  function EffectivePriority(p: Option<int>): (r: int)
    ensures p.None? ==> r == 100
    ensures p == Some(0) ==> r == 100
    ensures p.Some? && p.value != 0 ==> r == p.value
  {
    if p.None? || p.value == 0 then 100 else p.value
  }

  /** A module id with its effective priority. */
  datatype Entry = Entry(id: string, priority: int)

  predicate Sorted(s: seq<Entry>) {
    forall i, j :: 0 <= i < j < |s| ==> s[i].priority <= s[j].priority
  }

  /** The entries of priority `p`, in their order in `s`. */
  function WithPriority(s: seq<Entry>, p: int): seq<Entry>
    decreases |s|
  {
    if |s| == 0 then []
    else (if s[0].priority == p then [s[0]] else []) + WithPriority(s[1..], p)
  }

  /** Places `x` before the first entry whose priority is not smaller, so it stays
      ahead of every entry of equal priority. */
  function Insert(x: Entry, s: seq<Entry>): seq<Entry>
    decreases |s|
  {
    if |s| == 0 || x.priority <= s[0].priority then [x] + s
    else [s[0]] + Insert(x, s[1..])
  }

  /** The stable sort by priority. */
  function SortByPriority(s: seq<Entry>): seq<Entry>
    decreases |s|
  {
    if |s| == 0 then [] else Insert(s[0], SortByPriority(s[1..]))
  }

  predicate AllAtLeast(s: seq<Entry>, b: int) {
    forall i :: 0 <= i < |s| ==> b <= s[i].priority
  }

  lemma SortedTail(s: seq<Entry>)
    requires |s| > 0 && Sorted(s)
    ensures Sorted(s[1..]) && AllAtLeast(s[1..], s[0].priority)
  {
    forall i, j | 0 <= i < j < |s[1..]| ensures s[1..][i].priority <= s[1..][j].priority {
      assert s[1..][i] == s[i + 1] && s[1..][j] == s[j + 1];
    }
    forall i | 0 <= i < |s[1..]| ensures s[0].priority <= s[1..][i].priority {
      assert s[1..][i] == s[i + 1];
    }
  }

  lemma SortedCons(a: Entry, t: seq<Entry>)
    requires Sorted(t) && AllAtLeast(t, a.priority)
    ensures Sorted([a] + t)
  {
    var r := [a] + t;
    forall i, j | 0 <= i < j < |r| ensures r[i].priority <= r[j].priority {
      assert r[j] == t[j - 1];
      if i > 0 { assert r[i] == t[i - 1]; }
    }
  }

  lemma {:induction false} InsertAtLeast(x: Entry, s: seq<Entry>, b: int)
    requires AllAtLeast(s, b) && b <= x.priority
    ensures AllAtLeast(Insert(x, s), b)
    decreases |s|
  {
    if |s| > 0 && x.priority > s[0].priority {
      assert AllAtLeast(s[1..], b) by {
        forall i | 0 <= i < |s[1..]| ensures b <= s[1..][i].priority { assert s[1..][i] == s[i + 1]; }
      }
      InsertAtLeast(x, s[1..], b);
      var t := Insert(x, s[1..]);
      forall i | 0 <= i < |[s[0]] + t| ensures b <= ([s[0]] + t)[i].priority {
        if i > 0 { assert ([s[0]] + t)[i] == t[i - 1]; }
      }
    } else {
      forall i | 0 <= i < |[x] + s| ensures b <= ([x] + s)[i].priority {
        if i > 0 { assert ([x] + s)[i] == s[i - 1]; }
      }
    }
  }

  lemma {:induction false} InsertSorted(x: Entry, s: seq<Entry>)
    requires Sorted(s)
    ensures Sorted(Insert(x, s))
    decreases |s|
  {
    if |s| == 0 || x.priority <= s[0].priority {
      if |s| > 0 {
        SortedTail(s);
        forall i | 0 <= i < |s| ensures x.priority <= s[i].priority {
          if i > 0 { assert s[i] == s[1..][i - 1]; }
        }
      }
      SortedCons(x, s);
    } else {
      SortedTail(s);
      InsertSorted(x, s[1..]);
      InsertAtLeast(x, s[1..], s[0].priority);
      SortedCons(s[0], Insert(x, s[1..]));
    }
  }

  lemma {:induction false} InsertPermutes(x: Entry, s: seq<Entry>)
    ensures multiset(Insert(x, s)) == multiset(s) + multiset{x}
    ensures |Insert(x, s)| == |s| + 1
    decreases |s|
  {
    if |s| > 0 && x.priority > s[0].priority {
      InsertPermutes(x, s[1..]);
      assert s == [s[0]] + s[1..];
    }
  }

  lemma WithPriorityCons(a: Entry, t: seq<Entry>, p: int)
    ensures WithPriority([a] + t, p) == (if a.priority == p then [a] else []) + WithPriority(t, p)
  {
    var r := [a] + t;
    assert r[0] == a && r[1..] == t;
  }

  /** Inserting `x` adds it to its own priority class, ahead of that class: every entry
      it is moved past has a smaller priority. */
  lemma {:induction false} InsertWithPriority(x: Entry, s: seq<Entry>, p: int)
    ensures WithPriority(Insert(x, s), p) == (if x.priority == p then [x] else []) + WithPriority(s, p)
    decreases |s|
  {
    if |s| == 0 || x.priority <= s[0].priority {
      WithPriorityCons(x, s, p);
    } else {
      InsertWithPriority(x, s[1..], p);
      WithPriorityCons(s[0], Insert(x, s[1..]), p);
      WithPriorityCons(s[0], s[1..], p);
      assert [s[0]] + s[1..] == s;
    }
  }

  /** The result is ordered by priority and is a permutation of the input. */
  lemma {:induction false} SortByPrioritySortsAndPermutes(s: seq<Entry>)
    ensures Sorted(SortByPriority(s))
    ensures multiset(SortByPriority(s)) == multiset(s)
    ensures |SortByPriority(s)| == |s|
    decreases |s|
  {
    if |s| > 0 {
      SortByPrioritySortsAndPermutes(s[1..]);
      InsertSorted(s[0], SortByPriority(s[1..]));
      InsertPermutes(s[0], SortByPriority(s[1..]));
      assert s == [s[0]] + s[1..];
    }
  }

  /** Stability: the entries of every priority keep their input order. */
  lemma {:induction false} SortByPriorityIsStable(s: seq<Entry>, p: int)
    ensures WithPriority(SortByPriority(s), p) == WithPriority(s, p)
    decreases |s|
  {
    if |s| > 0 {
      SortByPriorityIsStable(s[1..], p);
      InsertWithPriority(s[0], SortByPriority(s[1..]), p);
      WithPriorityCons(s[0], s[1..], p);
      assert [s[0]] + s[1..] == s;
    }
  }
}
