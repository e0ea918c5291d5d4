/** The list operations `RestBuilder` applies to its parameter list: `List.Find`
    and `Array.Find` by name, `List.Remove` (first equal element), LINQ's
    `Intersect`, and the two readings of `RestBuilder.AddParameters`: the code
    as written, and the evidently intended version that walks a snapshot of the
    duplicates. */
module ParameterList {
  import opened Values
  import opened RestTypes

  /** Position of the first parameter called `name`; `|ps|` when there is none. */
  function IndexOfName(ps: seq<Parameter>, name: string): (i: nat)
    ensures i <= |ps|
    ensures forall j :: 0 <= j < i ==> ps[j].name != name
    ensures i < |ps| ==> ps[i].name == name
    decreases |ps|
  {
    if ps == [] then 0
    else if ps[0].name == name then 0
    else 1 + IndexOfName(ps[1..], name)
  }

  /** `Find(x => x.Name == name)`: the first parameter with that name, or null. */
  function FindByName(ps: seq<Parameter>, name: string): (r: Option<Parameter>)
    ensures r.None? <==> forall p :: p in ps ==> p.name != name
    ensures r.Some? ==> r.value in ps && r.value.name == name
    ensures r.Some? ==> forall j :: 0 <= j < |ps| && ps[j].name == name ==> ps[j] == r.value || r.value in ps[..j]
  {
    var i := IndexOfName(ps, name);
    if i < |ps| then Some(ps[i]) else None
  }

  /** A parameter that is in the array is always found by its own name. */
  lemma FindByNameOfMember(ps: seq<Parameter>, p: Parameter)
    requires p in ps
    ensures FindByName(ps, p.name).Some?
  {
  }

  /** `List.Remove(x)`: drops the first element equal to `x`; a no-op when there is none. */
  function RemoveFirst(ps: seq<Parameter>, x: Parameter): (r: seq<Parameter>)
    ensures x !in ps ==> r == ps
    ensures x in ps ==> |r| == |ps| - 1
    decreases |ps|
  {
    if ps == [] then []
    else if ps[0] == x then ps[1..]
    else [ps[0]] + RemoveFirst(ps[1..], x)
  }

  /** `List.Remove(x)` takes exactly one `x` out of the list, if there is one. */
  lemma {:induction false} RemoveFirstMultiset(ps: seq<Parameter>, x: Parameter)
    ensures multiset(RemoveFirst(ps, x)) == multiset(ps) - multiset{x}
    decreases |ps|
  {
    if ps != [] {
      assert ps == [ps[0]] + ps[1..];
      RemoveFirstMultiset(ps[1..], x);
    }
  }

  /** Removing an element that sits in the front part leaves the back part alone. */
  lemma {:induction false} RemoveFirstInFront(front: seq<Parameter>, back: seq<Parameter>, x: Parameter)
    requires x in front
    ensures RemoveFirst(front + back, x) == RemoveFirst(front, x) + back
    decreases |front|
  {
    if front[0] != x {
      assert (front + back)[1..] == front[1..] + back;
      RemoveFirstInFront(front[1..], back, x);
    }
  }

  /** Elements in front that differ from `x` are kept in front. */
  lemma {:induction false} RemoveFirstBehind(front: seq<Parameter>, back: seq<Parameter>, x: Parameter)
    requires x !in front
    ensures RemoveFirst(front + back, x) == front + RemoveFirst(back, x)
    decreases |front|
  {
    if front != [] {
      var ps := front + back;
      assert ps[0] == front[0] != x;
      assert ps[1..] == front[1..] + back;
      assert RemoveFirst(ps, x) == [front[0]] + RemoveFirst(front[1..] + back, x);
      RemoveFirstBehind(front[1..], back, x);
      assert front == [front[0]] + front[1..];
    } else {
      assert front + back == back;
    }
  }

  /** When no earlier element equals `ps[i]`, `List.Remove(ps[i])` removes position `i`. */
  lemma RemoveFirstAt(ps: seq<Parameter>, i: nat)
    requires i < |ps|
    requires forall j :: 0 <= j < i ==> ps[j] != ps[i]
    ensures RemoveFirst(ps, ps[i]) == ps[..i] + ps[i + 1..]
  {
    var x := ps[i];
    assert ps == ps[..i] + ps[i..];
    RemoveFirstBehind(ps[..i], ps[i..], x);
    assert ps[i..][1..] == ps[i + 1..];
  }

  /** LINQ `first.Intersect(second)` with `remaining` the set built from `second`:
      each element of `first` that is still in the set is yielded and taken out of it. */
  function IntersectFrom(first: seq<Parameter>, remaining: set<Parameter>): (r: seq<Parameter>)
    ensures forall x :: x in r <==> x in first && x in remaining
    decreases |first|
  {
    if first == [] then []
    else if first[0] in remaining then [first[0]] + IntersectFrom(first[1..], remaining - {first[0]})
    else IntersectFrom(first[1..], remaining)
  }

  /** What `IntersectFrom` yields is a sub-list of `first`. */
  lemma {:induction false} IntersectFromSubList(first: seq<Parameter>, remaining: set<Parameter>)
    ensures multiset(IntersectFrom(first, remaining)) <= multiset(first)
    decreases |first|
  {
    if first != [] {
      assert first == [first[0]] + first[1..];
      IntersectFromSubList(first[1..], remaining - {first[0]});
      IntersectFromSubList(first[1..], remaining);
    }
  }

  /** No parameter occurs twice. */
  predicate Distinct(ps: seq<Parameter>)
  {
    forall i, j :: 0 <= i < j < |ps| ==> ps[i] != ps[j]
  }

  /** `IntersectFrom` never yields the same parameter twice. */
  lemma {:induction false} IntersectFromDistinct(first: seq<Parameter>, remaining: set<Parameter>)
    ensures Distinct(IntersectFrom(first, remaining))
    decreases |first|
  {
    if first != [] {
      IntersectFromDistinct(first[1..], remaining - {first[0]});
      IntersectFromDistinct(first[1..], remaining);
      var r := IntersectFrom(first, remaining);
      if first[0] in remaining {
        var rest := IntersectFrom(first[1..], remaining - {first[0]});
        assert r == [first[0]] + rest;
        forall i, j | 0 <= i < j < |r| ensures r[i] != r[j] {
          assert r[j] == rest[j - 1] && rest[j - 1] in rest;
          if i > 0 { assert r[i] == rest[i - 1]; } else { assert r[i] == first[0]; }
        }
      } else {
        assert r == IntersectFrom(first[1..], remaining);
      }
    }
  }

  /** `existing.Intersect(incoming)`: the distinct existing parameters that are
      equal to some incoming one, in the order of the existing list. */
  function Intersect(existing: seq<Parameter>, incoming: seq<Parameter>): (r: seq<Parameter>)
    ensures forall x :: x in r <==> x in existing && x in incoming
  {
    IntersectFrom(existing, set p | p in incoming)
  }

  /** The duplicates are distinct, each listed once however often it occurs. */
  lemma IntersectDistinct(existing: seq<Parameter>, incoming: seq<Parameter>)
    ensures Distinct(Intersect(existing, incoming))
  {
    IntersectFromDistinct(existing, set p | p in incoming);
  }

  /** The first thing `IntersectFrom` yields is the first element of `first`
      that lies in `remaining`. */
  lemma {:induction false} IntersectFromHead(first: seq<Parameter>, remaining: set<Parameter>)
    ensures var r := IntersectFrom(first, remaining);
            r != [] ==> exists k :: 0 <= k < |first| && first[k] == r[0] && first[k] in remaining
                                    && forall j :: 0 <= j < k ==> first[j] !in remaining
    decreases |first|
  {
    var r := IntersectFrom(first, remaining);
    if first != [] && r != [] {
      if first[0] in remaining {
        assert first[0] == r[0];
      } else {
        IntersectFromHead(first[1..], remaining);
        assert r == IntersectFrom(first[1..], remaining);
        var k :| 0 <= k < |first[1..]| && first[1..][k] == r[0] && first[1..][k] in remaining
                 && forall j :: 0 <= j < k ==> first[1..][j] !in remaining;
        assert first[k + 1] == r[0];
        forall j | 0 <= j < k + 1 ensures first[j] !in remaining {
          if j > 0 {
            assert first[j] == first[1..][j - 1];
          }
        }
      }
    }
  }

  /** `r` sits in `first` at the strictly increasing positions `idx`. */
  predicate IndexedBy(r: seq<Parameter>, first: seq<Parameter>, idx: seq<int>)
  {
    && |idx| == |r|
    && (forall i :: 0 <= i < |idx| ==> 0 <= idx[i] < |first| && first[idx[i]] == r[i])
    && (forall i, j :: 0 <= i < j < |idx| ==> idx[i] < idx[j])
  }

  /** Each position in `idx` is the first occurrence in `first` of the element there. */
  predicate AtFirstOccurrences(first: seq<Parameter>, idx: seq<int>)
  {
    forall i :: 0 <= i < |idx| ==> 0 <= idx[i] < |first| && first[idx[i]] !in first[..idx[i]]
  }

  /** `r` is a sub-list of `first` in the order of `first`, each element taken
      at its first occurrence there. */
  ghost predicate InOrderIn(r: seq<Parameter>, first: seq<Parameter>)
  {
    exists idx :: IndexedBy(r, first, idx) && AtFirstOccurrences(first, idx)
  }

  /** Positions in the tail of `first` are positions in `first`, one further on. */
  lemma ShiftedIndices(r: seq<Parameter>, first: seq<Parameter>, idx: seq<int>) returns (shifted: seq<int>)
    requires first != [] && IndexedBy(r, first[1..], idx)
    requires AtFirstOccurrences(first[1..], idx) && first[0] !in r
    ensures IndexedBy(r, first, shifted) && AtFirstOccurrences(first, shifted)
    ensures forall i :: 0 <= i < |shifted| ==> shifted[i] >= 1
  {
    shifted := seq(|idx|, i requires 0 <= i < |idx| => idx[i] + 1);
    forall i | 0 <= i < |shifted| ensures 0 <= shifted[i] < |first| && first[shifted[i]] == r[i] {
      assert first[1..][idx[i]] == first[idx[i] + 1];
    }
    forall i | 0 <= i < |shifted| ensures first[shifted[i]] !in first[..shifted[i]] {
      assert first[..shifted[i]] == [first[0]] + first[1..][..idx[i]];
      assert first[shifted[i]] == r[i] && r[i] in r;
    }
  }

  /** Putting the head of `first` in front keeps the positions increasing. */
  lemma PrependHead(r: seq<Parameter>, first: seq<Parameter>, idx: seq<int>) returns (all: seq<int>)
    requires first != [] && IndexedBy(r, first, idx) && AtFirstOccurrences(first, idx)
    requires forall i :: 0 <= i < |idx| ==> idx[i] >= 1
    ensures IndexedBy([first[0]] + r, first, all) && AtFirstOccurrences(first, all)
  {
    all := [0] + idx;
    var r' := [first[0]] + r;
    forall i | 0 <= i < |all| ensures 0 <= all[i] < |first| && first[all[i]] == r'[i] {
      if i > 0 {
        assert all[i] == idx[i - 1] && r'[i] == r[i - 1];
      }
    }
    forall i, j | 0 <= i < j < |all| ensures all[i] < all[j] {
      assert all[j] == idx[j - 1];
      if i > 0 {
        assert all[i] == idx[i - 1];
      }
    }
    forall i | 0 <= i < |all| ensures first[all[i]] !in first[..all[i]] {
      if i > 0 {
        assert all[i] == idx[i - 1];
      }
    }
  }

  /** `IntersectFrom` yields its elements in the order of `first`, each at its
      first occurrence there. */
  lemma {:induction false} IntersectFromInOrder(first: seq<Parameter>, remaining: set<Parameter>)
    ensures InOrderIn(IntersectFrom(first, remaining), first)
    decreases |first|
  {
    var r := IntersectFrom(first, remaining);
    if first == [] {
      assert IndexedBy(r, first, []) && AtFirstOccurrences(first, []);
    } else {
      var rem := if first[0] in remaining then remaining - {first[0]} else remaining;
      var rest := IntersectFrom(first[1..], rem);
      IntersectFromInOrder(first[1..], rem);
      var idx :| IndexedBy(rest, first[1..], idx) && AtFirstOccurrences(first[1..], idx);
      assert first[0] !in rem;
      var shifted := ShiftedIndices(rest, first, idx);
      if first[0] in remaining {
        assert r == [first[0]] + rest;
        var all := PrependHead(rest, first, shifted);
        assert IndexedBy(r, first, all) && AtFirstOccurrences(first, all);
      } else {
        assert r == rest;
        assert IndexedBy(r, first, shifted) && AtFirstOccurrences(first, shifted);
      }
    }
  }

  /** The first duplicate is the first existing parameter equal to an incoming one. */
  lemma IntersectHead(existing: seq<Parameter>, incoming: seq<Parameter>)
    ensures var r := Intersect(existing, incoming);
            r != [] ==> exists k :: 0 <= k < |existing| && existing[k] == r[0] && existing[k] in incoming
                                    && forall j :: 0 <= j < k ==> existing[j] !in incoming
  {
    IntersectFromHead(existing, set p | p in incoming);
  }

  /** The duplicates come in the order of their first occurrences in the existing list. */
  lemma IntersectInOrder(existing: seq<Parameter>, incoming: seq<Parameter>)
    ensures InOrderIn(Intersect(existing, incoming), existing)
  {
    IntersectFromInOrder(existing, set p | p in incoming);
  }

  /** One turn of the `foreach (var dup in duplicates)` body: remove `dup` and
      append the first incoming parameter carrying its name, unless there is none. */
  function ReplaceOne(ps: seq<Parameter>, dup: Parameter, incoming: seq<Parameter>): (r: seq<Parameter>)
    ensures FindByName(incoming, dup.name).None? ==> r == ps
    ensures FindByName(incoming, dup.name).Some? ==>
              && |r| == (if dup in ps then |ps| else |ps| + 1)
              && r[|r| - 1] == FindByName(incoming, dup.name).value
              && r[|r| - 1].name == dup.name
  {
    match FindByName(incoming, dup.name)
    case None => ps
    case Some(param) => RemoveFirst(ps, dup) + [param]
  }

  /** The loop body applied to each of `dups`, in order. */
  function ReplaceEach(ps: seq<Parameter>, dups: seq<Parameter>, incoming: seq<Parameter>): (r: seq<Parameter>)
    ensures |ps| <= |r| <= |ps| + |dups|
    decreases |dups|
  {
    if dups == [] then ps else ReplaceEach(ReplaceOne(ps, dups[0], incoming), dups[1..], incoming)
  }

  /** Running the loop body one more time extends the fold at the end. */
  lemma {:induction false} ReplaceEachSnoc(ps: seq<Parameter>, dups: seq<Parameter>, d: Parameter, incoming: seq<Parameter>)
    ensures ReplaceEach(ps, dups + [d], incoming) == ReplaceOne(ReplaceEach(ps, dups, incoming), d, incoming)
    decreases |dups|
  {
    if dups == [] {
      assert [d][1..] == [];
    } else {
      assert (dups + [d])[1..] == dups[1..] + [d];
      ReplaceEachSnoc(ReplaceOne(ps, dups[0], incoming), dups[1..], d, incoming);
    }
  }

  /** `List.Remove` applied for each of `xs`, in order. */
  function RemoveAll(ps: seq<Parameter>, xs: seq<Parameter>): (r: seq<Parameter>)
    ensures |ps| - |xs| <= |r| <= |ps|
    decreases |xs|
  {
    if xs == [] then ps else RemoveAll(RemoveFirst(ps, xs[0]), xs[1..])
  }

  /** Removing a sub-multiset takes out exactly its elements. */
  lemma {:induction false} RemoveAllCount(ps: seq<Parameter>, xs: seq<Parameter>)
    requires multiset(xs) <= multiset(ps)
    ensures |RemoveAll(ps, xs)| == |ps| - |xs|
    ensures multiset(RemoveAll(ps, xs)) == multiset(ps) - multiset(xs)
    decreases |xs|
  {
    if xs != [] {
      var x := xs[0];
      assert xs == [x] + xs[1..];
      assert x in multiset(ps);
      RemoveFirstMultiset(ps, x);
      RemoveAllCount(RemoveFirst(ps, x), xs[1..]);
    }
  }

  /** The incoming parameters that replace `dups`: for each, the first incoming one with its name. */
  function Replacements(dups: seq<Parameter>, incoming: seq<Parameter>): (r: seq<Parameter>)
    ensures |r| <= |dups|
    ensures forall x :: x in r ==> x in incoming
    decreases |dups|
  {
    if dups == [] then []
    else
      match FindByName(incoming, dups[0].name)
      case None => Replacements(dups[1..], incoming)
      case Some(param) => [param] + Replacements(dups[1..], incoming)
  }

  /** When every duplicate comes from the incoming array, each has exactly one
      replacement: the first incoming parameter with its name. */
  lemma {:induction false} ReplacementsMatch(dups: seq<Parameter>, incoming: seq<Parameter>)
    requires forall d :: d in dups ==> d in incoming
    ensures |Replacements(dups, incoming)| == |dups|
    ensures forall i :: 0 <= i < |dups| ==>
              Some(Replacements(dups, incoming)[i]) == FindByName(incoming, dups[i].name)
    decreases |dups|
  {
    if dups != [] {
      FindByNameOfMember(incoming, dups[0]);
      ReplacementsMatch(dups[1..], incoming);
      var rest := Replacements(dups[1..], incoming);
      assert Replacements(dups, incoming) == [FindByName(incoming, dups[0].name).value] + rest;
      forall i | 1 <= i < |dups|
        ensures Some(Replacements(dups, incoming)[i]) == FindByName(incoming, dups[i].name)
      {
        assert dups[i] == dups[1..][i - 1];
      }
    }
  }

  /** Taking the first of `xs` out of `ps` keeps the rest of `xs` a sub-multiset. */
  lemma SubMultisetStep(xs: seq<Parameter>, ps: seq<Parameter>)
    requires xs != [] && multiset(xs) <= multiset(ps)
    ensures xs[0] in ps
    ensures multiset(xs[1..]) <= multiset(RemoveFirst(ps, xs[0]))
  {
    assert xs == [xs[0]] + xs[1..];
    assert xs[0] in multiset(ps);
    RemoveFirstMultiset(ps, xs[0]);
  }

  /** One turn of the loop on a duplicate that sits in the front part. */
  lemma ReplaceOneInFront(front: seq<Parameter>, back: seq<Parameter>, d: Parameter, incoming: seq<Parameter>)
    requires d in front && d in incoming
    ensures FindByName(incoming, d.name).Some?
    ensures ReplaceOne(front + back, d, incoming)
            == RemoveFirst(front, d) + (back + [FindByName(incoming, d.name).value])
  {
    FindByNameOfMember(incoming, d);
    RemoveFirstInFront(front, back, d);
  }

  /** Moving one element from the end of the middle part to the front of the last. */
  lemma ShiftAcross(kept: seq<Parameter>, back: seq<Parameter>, param: Parameter, reps: seq<Parameter>)
    ensures kept + (back + [param]) + reps == kept + back + ([param] + reps)
  {
  }

  /** Replacing duplicates that all sit in the front part, with incoming names:
      each is removed from the front, and the replacements are appended in order. */
  lemma {:induction false} ReplaceEachShape(front: seq<Parameter>, back: seq<Parameter>, dups: seq<Parameter>, incoming: seq<Parameter>)
    requires forall d :: d in dups ==> d in incoming
    requires multiset(dups) <= multiset(front)
    ensures ReplaceEach(front + back, dups, incoming) == RemoveAll(front, dups) + back + Replacements(dups, incoming)
    decreases |dups|
  {
    if dups != [] {
      var d, rest := dups[0], dups[1..];
      SubMultisetStep(dups, front);
      assert d in incoming;
      ReplaceOneInFront(front, back, d, incoming);
      var param := FindByName(incoming, d.name).value;
      var front' := RemoveFirst(front, d);
      assert forall x :: x in rest ==> x in dups;
      ReplaceEachShape(front', back + [param], rest, incoming);
      assert ReplaceEach(front + back, dups, incoming) == ReplaceEach(front' + (back + [param]), rest, incoming);
      assert Replacements(dups, incoming) == [param] + Replacements(rest, incoming);
      ShiftAcross(RemoveAll(front', rest), back, param, Replacements(rest, incoming));
    }
  }

  /** The outcome of a mutator that may throw, and the list it leaves behind. */
  datatype ListUpdate = ListUpdate(outcome: Outcome, list: seq<Parameter>)

  /** `AddParameters` as written. Without duplicates the whole array is
      appended, whatever the names. With duplicates, the `foreach` enumerates
      the live list through a lazy `Intersect`: the first replacement changes
      the list, and the next step of the enumeration throws. */
  function AddParametersAsWritten(existing: seq<Parameter>, incoming: seq<Parameter>): (u: ListUpdate)
    ensures Intersect(existing, incoming) == [] ==> u == ListUpdate(Pass, existing + incoming)
    ensures Intersect(existing, incoming) != [] ==> u.outcome == Fail(InvalidOperation)
  {
    var dups := Intersect(existing, incoming);
    if dups == [] then ListUpdate(Pass, existing + incoming)
    else ListUpdate(Fail(InvalidOperation), ReplaceEach(existing, dups[..1], incoming))
  }

  /** `AddParameters` as evidently intended: every duplicate is replaced, and the call returns normally. */
  function AddParametersIntended(existing: seq<Parameter>, incoming: seq<Parameter>): (r: seq<Parameter>)
    ensures Intersect(existing, incoming) == [] ==> r == existing + incoming
    ensures Intersect(existing, incoming) != [] ==> |r| == |existing|
  {
    var dups := Intersect(existing, incoming);
    if dups == [] then existing + incoming
    else
      IntersectSubList(existing, incoming);
      ReplaceEachLength(existing, dups, incoming);
      ReplaceEach(existing, dups, incoming)
  }

  /** Replacing duplicates drawn from the list and from the incoming array keeps the length. */
  lemma {:induction false} ReplaceEachLength(ps: seq<Parameter>, dups: seq<Parameter>, incoming: seq<Parameter>)
    requires forall d :: d in dups ==> d in incoming
    requires multiset(dups) <= multiset(ps)
    ensures |ReplaceEach(ps, dups, incoming)| == |ps|
    decreases |dups|
  {
    if dups != [] {
      var d := dups[0];
      SubMultisetStep(dups, ps);
      assert d in incoming;
      FindByNameOfMember(incoming, d);
      assert forall x :: x in dups[1..] ==> x in dups;
      var next := RemoveFirst(ps, d) + [FindByName(incoming, d.name).value];
      assert multiset(dups[1..]) <= multiset(next);
      ReplaceEachLength(next, dups[1..], incoming);
    }
  }

  /** As written, only the first duplicate is replaced before the exception:
      it is removed, and the first incoming parameter with its name goes to the end. */
  lemma AsWrittenReplacesOnlyTheFirstDuplicate(existing: seq<Parameter>, incoming: seq<Parameter>)
    requires Intersect(existing, incoming) != []
    ensures var dup := Intersect(existing, incoming)[0];
            var u := AddParametersAsWritten(existing, incoming);
            && u.outcome == Fail(InvalidOperation)
            && FindByName(incoming, dup.name).Some?
            && u.list == RemoveFirst(existing, dup) + [FindByName(incoming, dup.name).value]
            && |u.list| == |existing|
  {
    var dups := Intersect(existing, incoming);
    var dup := dups[0];
    FindByNameOfMember(incoming, dup);
    assert dups[..1] == [dup];
    assert ReplaceEach(existing, [dup], incoming) == ReplaceOne(existing, dup, incoming);
  }

  /** The intended version keeps the length, removes every duplicate once, and
      ends with their replacements in the order of the existing list. */
  lemma IntendedReplacesEveryDuplicate(existing: seq<Parameter>, incoming: seq<Parameter>)
    requires Intersect(existing, incoming) != []
    ensures var dups := Intersect(existing, incoming);
            var r := AddParametersIntended(existing, incoming);
            && r == RemoveAll(existing, dups) + Replacements(dups, incoming)
            && |r| == |existing|
            && |dups| <= |existing|
            && r[|existing| - |dups|..] == Replacements(dups, incoming)
  {
    var dups := Intersect(existing, incoming);
    IntersectSubList(existing, incoming);
    assert existing + [] == existing;
    assert AddParametersIntended(existing, incoming) == ReplaceEach(existing + [], dups, incoming);
    ReplaceEachShape(existing, [], dups, incoming);
    RemoveAllCount(existing, dups);
    ReplacementsMatch(dups, incoming);
    SplitAt(RemoveAll(existing, dups), Replacements(dups, incoming));
  }

  /** The duplicates form a sub-multiset of the existing list. */
  lemma IntersectSubList(existing: seq<Parameter>, incoming: seq<Parameter>)
    ensures multiset(Intersect(existing, incoming)) <= multiset(existing)
  {
    IntersectFromSubList(existing, set p | p in incoming);
  }

  /** Splitting a concatenation at the length of its front part. */
  lemma SplitAt(front: seq<Parameter>, back: seq<Parameter>)
    ensures (front + back)[|front|..] == back
    ensures front + [] + back == front + back
  {
  }

  /** Equal parameters are needed to trigger replacement: a name collision alone appends. */
  lemma NameCollisionAloneAppends()
    ensures var old1 := Parameter("q", "a", GetOrPost);
            var new1 := Parameter("q", "b", GetOrPost);
            AddParametersAsWritten([old1], [new1]) == ListUpdate(Pass, [old1, new1])
  {
    var old1 := Parameter("q", "a", GetOrPost);
    var new1 := Parameter("q", "b", GetOrPost);
    assert old1 != new1;
    assert old1 !in Intersect([old1], [new1]);
  }

  /** Re-adding a parameter that is already there: the code throws after
      the replacement, where the intended version returns normally with the
      same list. */
  lemma ReaddingAParameterThrows()
    ensures var p := Parameter("q", "a", QueryString);
            && AddParametersAsWritten([p], [p]) == ListUpdate(Fail(InvalidOperation), [p])
            && AddParametersIntended([p], [p]) == [p]
  {
    var p := Parameter("q", "a", QueryString);
    assert p in Intersect([p], [p]);
    IntendedReplacesEveryDuplicate([p], [p]);
    AsWrittenReplacesOnlyTheFirstDuplicate([p], [p]);
  }

  /** With two duplicates the code leaves the second one in place, while the
      intended version replaces both. */
  lemma SecondDuplicateIsNotReplaced()
    ensures var a := Parameter("a", "1", QueryString);
            var b := Parameter("b", "2", QueryString);
            && AddParametersAsWritten([a, b], [a, b]).list == [b, a]
            && AddParametersIntended([a, b], [a, b]) == [a, b]
  {
    var a := Parameter("a", "1", QueryString);
    var b := Parameter("b", "2", QueryString);
    var dups := Intersect([a, b], [a, b]);
    assert (set p | p in [a, b]) == {a, b};
    assert [a, b][1..] == [b];
    assert {a, b} - {a} == {b};
    assert IntersectFrom([b], {b}) == [b];
    assert dups == [a, b];
    AsWrittenReplacesOnlyTheFirstDuplicate([a, b], [a, b]);
    assert FindByName([a, b], "a") == Some(a);
    assert FindByName([a, b], "b") == Some(b);
    assert ReplaceOne([a, b], a, [a, b]) == [b, a];
    assert ReplaceOne([b, a], b, [a, b]) == [a, b];
    assert ReplaceEach([a, b], [a, b], [a, b]) == ReplaceEach([b, a], [b], [a, b]);
  }
}
