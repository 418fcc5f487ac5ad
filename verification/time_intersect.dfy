/**
  `Time.intersect(a, b, exclude)` of ctparse/types.py: the field-by-field
  merge the grammar uses to combine two independently recognised fragments,
  which fails (None) as soon as the two disagree on a field.
 */
module TimeIntersect {

  import opened Wrappers
  import opened Times

  /** Both sides set the field, to different values. */
  predicate Clashes(x: Option<Value>, y: Option<Value>)
  {
    x.Some? && y.Some? && x != y
  }

  /** What a successful merge keeps in field `f`: nothing for an excluded
      field, otherwise `a`'s value when `a` has one, else `b`'s. */
  function Merged(a: Time, b: Time, exclude: seq<Field>, f: Field): Option<Value>
  {
    if f in exclude then None else if a.Get(f).Some? then a.Get(f) else b.Get(f)
  }

  function Pick<T>(x: Option<T>, y: Option<T>, excluded: bool): Option<T>
  {
    if excluded then None else if x.Some? then x else y
  }

  /**
    The merge as a value: None exactly when some field that is not excluded
    is set on both sides to different values; otherwise every excluded field
    is None and every other field takes `a`'s value if set, else `b`'s.
   */
  function Intersection(a: Time, b: Time, exclude: seq<Field>): (r: Option<Time>)
    ensures r.None? <==> exists f :: f !in exclude && Clashes(a.Get(f), b.Get(f))
    ensures r.Some? ==> forall f :: r.value.Get(f) == Merged(a, b, exclude, f)
  {
    if exists f | f in AllFields :: f !in exclude && Clashes(a.Get(f), b.Get(f)) then None
    else Some(Time(
      Pick(a.year, b.year, Year in exclude),
      Pick(a.month, b.month, Month in exclude),
      Pick(a.day, b.day, Day in exclude),
      Pick(a.hour, b.hour, Hour in exclude),
      Pick(a.minute, b.minute, Minute in exclude),
      Pick(a.dow, b.dow, DOW in exclude),
      Pick(a.pod, b.pod, POD in exclude)))
  }

  function Lookup(params: map<Field, Value>, f: Field): Option<Value>
  {
    if f in params then Some(params[f]) else None
  }

  function NumAt(params: map<Field, Value>, f: Field): Option<int>
  {
    if f in params && params[f].Num? then Some(params[f].n) else None
  }

  /** `Time(**params)`: each given field is set, every other one is None. */
  function FromParams(params: map<Field, Value>): (t: Time)
    ensures forall f :: f in params && Kinded(f, params[f]) ==> t.Get(f) == Some(params[f])
    ensures forall f :: f !in params ==> t.Get(f).None?
  {
    Time(
      NumAt(params, Year), NumAt(params, Month), NumAt(params, Day),
      NumAt(params, Hour), NumAt(params, Minute), NumAt(params, DOW),
      if POD in params && params[POD].Tag? then Some(params[POD].p) else None)
  }

  /** Two values that agree on every field are the same value. */
  lemma SameFieldsSameTime(s: Time, t: Time)
    requires forall f :: s.Get(f) == t.Get(f)
    ensures s == t
  {
    assert s.Get(Year) == t.Get(Year);
    assert s.Get(Month) == t.Get(Month);
    assert s.Get(Day) == t.Get(Day);
    assert s.Get(Hour) == t.Get(Hour);
    assert s.Get(Minute) == t.Get(Minute);
    assert s.Get(DOW) == t.Get(DOW);
    assert s.Get(POD) == t.Get(POD);
  }

  /**
    The classmethod as the source runs it: walk the declared fields in order,
    skip excluded ones, collect agreed values into `params`, and return None
    at the first disagreement.
   */
  method Intersect(a: Time, b: Time, exclude: seq<Field>) returns (r: Option<Time>)
    ensures r == Intersection(a, b, exclude)
  {
    var params: map<Field, Value> := map[];
    for i := 0 to |AllFields|
      invariant forall f :: f in AllFields[..i] && f !in exclude ==> !Clashes(a.Get(f), b.Get(f))
      invariant forall f :: f in AllFields[..i] ==> Lookup(params, f) == Merged(a, b, exclude, f)
      invariant forall f :: f !in AllFields[..i] ==> f !in params
      invariant forall f :: f in params ==> Kinded(f, params[f])
    {
      var attr := AllFields[i];
      assert AllFields[..i + 1] == AllFields[..i] + [attr];
      if attr in exclude {
        continue;
      }
      var x, y := a.Get(attr), b.Get(attr);
      if x.Some? && y.Some? {
        if x == y {
          params := params[attr := x.value];
        } else {
          assert attr !in exclude && Clashes(a.Get(attr), b.Get(attr));
          return None;
        }
      } else if x.Some? {
        params := params[attr := x.value];
      } else if y.Some? {
        params := params[attr := y.value];
      }
    }
    assert AllFields[..|AllFields|] == AllFields;
    var t := FromParams(params);
    var expected := Intersection(a, b, exclude);
    assert expected.Some?;
    forall f
      ensures t.Get(f) == expected.value.Get(f)
    {
      assert f in AllFields;
    }
    SameFieldsSameTime(t, expected.value);
    r := Some(t);
  }

  /** Merging is commutative. */
  lemma IntersectCommutes(a: Time, b: Time, exclude: seq<Field>)
    ensures Intersection(a, b, exclude) == Intersection(b, a, exclude)
  {
  }

  /** A value merged with itself, or with `Time()`, is that value. */
  lemma IntersectIdentity(a: Time)
    ensures Intersection(a, a, []) == Some(a)
    ensures Intersection(a, Unset, []) == Some(a)
    ensures Intersection(Unset, a, []) == Some(a)
  {
  }

  /** `c` carries every field `a` sets, with the same value. */
  predicate Refines(c: Time, a: Time)
  {
    forall f :: a.Get(f).Some? ==> c.Get(f) == a.Get(f)
  }

  /**
    With nothing excluded the merge is the least common refinement: it
    succeeds exactly when some value refines both inputs, and then it
    refines both and is refined by every value that refines both.
   */
  lemma IntersectIsLeastCommonRefinement(a: Time, b: Time)
    ensures Intersection(a, b, []).Some? <==> exists c :: Refines(c, a) && Refines(c, b)
    ensures Intersection(a, b, []).Some? ==>
              var m := Intersection(a, b, []).value;
              && Refines(m, a) && Refines(m, b)
              && forall c :: Refines(c, a) && Refines(c, b) ==> Refines(c, m)
  {
    var r := Intersection(a, b, []);
    if r.Some? {
      assert Refines(r.value, a) by {
        forall f | a.Get(f).Some? ensures r.value.Get(f) == a.Get(f) {
          assert !Clashes(a.Get(f), b.Get(f));
        }
      }
      assert Refines(r.value, b) by {
        forall f | b.Get(f).Some? ensures r.value.Get(f) == b.Get(f) {
          assert !Clashes(a.Get(f), b.Get(f));
        }
      }
    } else {
      var f :| f !in [] && Clashes(a.Get(f), b.Get(f));
      forall c | Refines(c, a)
        ensures !Refines(c, b)
      {
        assert c.Get(f) == a.Get(f) != b.Get(f);
      }
    }
  }

  /** Merging does not depend on grouping: with nothing excluded, merging
      three fragments gives the same result whichever pair goes first. */
  lemma IntersectAssociates(a: Time, b: Time, c: Time)
    ensures
      (match Intersection(a, b, []) case None => None case Some(ab) => Intersection(ab, c, []))
      ==
      (match Intersection(b, c, []) case None => None case Some(bc) => Intersection(a, bc, []))
  {
  }

}
