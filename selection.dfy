/** The selection: a JavaScript `Set` of model ids, which is duplicate-free
    and iterates in insertion order, modelled as a sequence of distinct ids. */
module Selection {

  predicate Distinct(s: seq<string>) {
    forall i, j :: 0 <= i < j < |s| ==> s[i] != s[j]
  }

  /** `set.add(id)`: appended when absent; an id already present keeps its
      place. */
  function Add(s: seq<string>, id: string): seq<string> {
    if id in s then s else s + [id]
  }

  /** `set.delete(id)`: every other id stays, in order. */
  function Remove(s: seq<string>, id: string): seq<string> {
    if |s| == 0 then []
    else (if s[0] == id then [] else [s[0]]) + Remove(s[1..], id)
  }

  /** `ids.forEach(id => set.add(id))`. */
  function AddAll(s: seq<string>, ids: seq<string>): seq<string> {
    if |ids| == 0 then s else Add(AddAll(s, ids[..|ids| - 1]), ids[|ids| - 1])
  }

  /** `ids.forEach(id => set.delete(id))`. */
  function RemoveAll(s: seq<string>, ids: seq<string>): seq<string> {
    if |ids| == 0 then s else Remove(RemoveAll(s, ids[..|ids| - 1]), ids[|ids| - 1])
  }

  /** Adding keeps the selection duplicate-free, makes `id` a member, adds
      no other member, and leaves the selection as it was when `id` is
      already there. */
  lemma AddProperties(s: seq<string>, id: string, x: string)
    requires Distinct(s)
    ensures Distinct(Add(s, id))
    ensures x in Add(s, id) <==> x in s || x == id
    ensures s <= Add(s, id)
    ensures id in s ==> Add(s, id) == s
  {
  }

  /** Removal keeps exactly the members other than `id`. */
  lemma {:induction false} RemoveMembers(s: seq<string>, id: string, x: string)
    ensures x in Remove(s, id) <==> x in s && x != id
  {
    if |s| > 0 {
      RemoveMembers(s[1..], id, x);
      assert s == [s[0]] + s[1..];
    }
  }

  /** Removal keeps order: removing from a concatenation removes from both
      parts. */
  lemma {:induction false} RemoveAppend(a: seq<string>, b: seq<string>, id: string)
    ensures Remove(a + b, id) == Remove(a, id) + Remove(b, id)
  {
    if |a| == 0 {
      assert a + b == b;
    } else {
      var x, t := a[0], a[1..];
      assert a == [x] + t;
      assert a + b == [x] + (t + b);
      RemoveCons(x, t, id);
      RemoveCons(x, t + b, id);
      RemoveAppend(t, b, id);
    }
  }

  lemma RemoveCons(x: string, t: seq<string>, id: string)
    ensures Remove([x] + t, id) == (if x == id then [] else [x]) + Remove(t, id)
  {
    assert ([x] + t)[1..] == t;
  }

  /** Removing an absent id changes nothing. */
  lemma {:induction false} RemoveAbsent(s: seq<string>, id: string)
    requires id !in s
    ensures Remove(s, id) == s
  {
    if |s| > 0 {
      RemoveAbsent(s[1..], id);
      assert s == [s[0]] + s[1..];
    }
  }

  /** Removal keeps the selection duplicate-free and never makes it longer. */
  lemma {:induction false} RemoveDistinct(s: seq<string>, id: string)
    requires Distinct(s)
    ensures Distinct(Remove(s, id))
    ensures |Remove(s, id)| <= |s|
  {
    if |s| > 0 {
      RemoveDistinct(s[1..], id);
      RemoveMembers(s[1..], id, s[0]);
      assert s[0] !in s[1..] by {
        forall j | 0 <= j < |s| - 1 ensures s[1..][j] != s[0] {
          assert s[1..][j] == s[j + 1];
        }
      }
      var r := Remove(s[1..], id);
      var h := if s[0] == id then [] else [s[0]];
      forall i, j | 0 <= i < j < |h + r| ensures (h + r)[i] != (h + r)[j] {
        if i < |h| {
          assert (h + r)[i] == s[0];
          assert (h + r)[j] == r[j - |h|];
          assert r[j - |h|] in r;
        } else {
          assert (h + r)[i] == r[i - |h|] && (h + r)[j] == r[j - |h|];
        }
      }
    }
  }

  /** Toggling an absent id on and then off restores the prior selection. */
  lemma ToggleRoundTrip(s: seq<string>, id: string)
    requires id !in s
    ensures Remove(Add(s, id), id) == s
  {
    RemoveAppend(s, [id], id);
    RemoveAbsent(s, id);
    assert Remove([id], id) == [] + Remove([], id);
  }

  /** Select-all: every id of the view becomes a member, the prior members
      stay in their places (the old selection is a prefix of the new one),
      nothing else is added, and the selection stays duplicate-free. */
  lemma {:induction false} AddAllProperties(s: seq<string>, ids: seq<string>, x: string)
    requires Distinct(s)
    ensures Distinct(AddAll(s, ids))
    ensures x in AddAll(s, ids) <==> x in s || x in ids
    ensures s <= AddAll(s, ids)
  {
    if |ids| > 0 {
      var init := ids[..|ids| - 1];
      var last := ids[|ids| - 1];
      AddAllProperties(s, init, x);
      AddProperties(AddAll(s, init), last, x);
      assert ids == init + [last];
      assert x in ids <==> x in init || x == last;
    }
  }

  /** Clear-all: the members that stay are exactly the prior members outside
      the view, and the selection stays duplicate-free. */
  lemma {:induction false} RemoveAllProperties(s: seq<string>, ids: seq<string>, x: string)
    requires Distinct(s)
    ensures Distinct(RemoveAll(s, ids))
    ensures x in RemoveAll(s, ids) <==> x in s && x !in ids
  {
    if |ids| > 0 {
      var init := ids[..|ids| - 1];
      var last := ids[|ids| - 1];
      RemoveAllProperties(s, init, x);
      RemoveDistinct(RemoveAll(s, init), last);
      RemoveMembers(RemoveAll(s, init), last, x);
      assert ids == init + [last];
      assert x in ids <==> x in init || x == last;
    }
  }
}
