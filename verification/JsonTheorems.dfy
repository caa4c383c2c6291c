/** What `canonical_json_bytes` and `strict_json_loads` promise together. */
module JsonTheorems {
  import opened Prelude
  import opened CanonicalJson

  // ------------------------------------------------------------------ key order

  lemma {:induction false} LessTotal(a: string, b: string)
    ensures (Less(a, b) || Less(b, a)) <==> a != b
    ensures !(Less(a, b) && Less(b, a))
  {
    if a != "" && b != "" && a[0] == b[0] {
      LessTotal(a[1..], b[1..]);
      assert a == [a[0]] + a[1..] && b == [b[0]] + b[1..];
    }
  }

  lemma {:induction false} LessTransitive(a: string, b: string, c: string)
    requires Less(a, b) && Less(b, c)
    ensures Less(a, c)
  {
    if a != "" && a[0] == b[0] == c[0] {
      LessTransitive(a[1..], b[1..], c[1..]);
    }
  }

  ghost predicate Sorted(ps: seq<Member>) {
    forall i, j | 0 <= i < j < |ps| :: Less(ps[i].key, ps[j].key)
  }

  lemma SortedUnique(ps: seq<Member>)
    requires Sorted(ps)
    ensures UniqueKeys(ps)
  {
    forall i, j | 0 <= i < j < |ps| ensures ps[i].key != ps[j].key {
      LessTotal(ps[i].key, ps[j].key);
    }
  }

  lemma {:induction false} InsertMembers(p: Member, ps: seq<Member>)
    ensures forall m :: m in Insert(p, ps) <==> m == p || m in ps
  {
    if ps != [] && !Less(p.key, ps[0].key) {
      InsertMembers(p, ps[1..]);
      assert ps == [ps[0]] + ps[1..];
    }
  }

  lemma {:induction false} InsertSorted(p: Member, ps: seq<Member>)
    requires Sorted(ps) && forall i | 0 <= i < |ps| :: ps[i].key != p.key
    ensures Sorted(Insert(p, ps))
  {
    if ps == [] {
    } else if Less(p.key, ps[0].key) {
      forall j | 0 < j < |ps| ensures Less(p.key, ps[j].key) {
        LessTransitive(p.key, ps[0].key, ps[j].key);
      }
    } else {
      LessTotal(p.key, ps[0].key);
      var r := Insert(p, ps[1..]);
      InsertSorted(p, ps[1..]);
      InsertMembers(p, ps[1..]);
      forall j | 0 <= j < |r| ensures Less(ps[0].key, r[j].key) {
        assert r[j] in r;
      }
    }
  }

  ghost function Norm(m: Member): Member { Member(m.key, Normalize(m.value)) }

  /** The normalized members are the original ones with normalized values. */
  lemma {:induction false} NormalizedMembers(ps: seq<Member>)
    ensures forall i | 0 <= i < |ps| :: Norm(ps[i]) in NormalizePairs(ps)
    ensures forall m | m in NormalizePairs(ps) ::
              exists i :: 0 <= i < |ps| && m == Norm(ps[i])
  {
    if ps != [] {
      var p, rest := Norm(ps[0]), NormalizePairs(ps[1..]);
      NormalizedMembers(ps[1..]);
      InsertMembers(p, rest);
      forall i | 0 <= i < |ps| ensures Norm(ps[i]) in NormalizePairs(ps) {
        if i > 0 { assert ps[i] == ps[1..][i - 1]; }
      }
      forall m | m in NormalizePairs(ps)
        ensures exists i :: 0 <= i < |ps| && m == Norm(ps[i])
      {
        if m in rest {
          var i :| 0 <= i < |ps[1..]| && m == Norm(ps[1..][i]);
          assert ps[i + 1] == ps[1..][i];
        } else {
          assert m == Norm(ps[0]);
        }
      }
    }
  }

  lemma {:induction false} NormalizedSorted(ps: seq<Member>)
    requires UniqueKeys(ps)
    ensures Sorted(NormalizePairs(ps))
  {
    if ps != [] {
      NormalizedSorted(ps[1..]);
      NormalizedMembers(ps[1..]);
      var rest := NormalizePairs(ps[1..]);
      forall i | 0 <= i < |rest| ensures rest[i].key != ps[0].key {
        assert rest[i] in rest;
      }
      InsertSorted(Norm(ps[0]), rest);
    }
  }

  lemma {:induction false} NormalizedItems(xs: seq<Json>)
    ensures forall i | 0 <= i < |xs| :: NormalizeItems(xs)[i] == Normalize(xs[i])
  {
    if xs != [] {
      NormalizedItems(xs[1..]);
    }
  }

  lemma ItemsKept(xs: seq<Json>, ys: seq<Json>, depth: nat)
    requires |xs| == |ys| && forall i | 0 <= i < |xs| :: IsValue(ys[i])
    requires forall i | 0 <= i < |xs| :: Valid(xs[i], depth + 1) ==> Valid(ys[i], depth + 1)
    ensures IsValue(Arr(ys)) && (Valid(Arr(xs), depth) ==> Valid(Arr(ys), depth))
  {
  }

  lemma PairsKept(ps: seq<Member>, depth: nat)
    requires UniqueKeys(ps) && forall i | 0 <= i < |ps| :: IsValue(Norm(ps[i]).value)
    requires forall i | 0 <= i < |ps| :: Valid(ps[i].value, depth + 1) ==> Valid(Norm(ps[i]).value, depth + 1)
    ensures IsValue(Obj(NormalizePairs(ps)))
    ensures Valid(Obj(ps), depth) ==> Valid(Obj(NormalizePairs(ps)), depth)
  {
    var qs := NormalizePairs(ps);
    NormalizedMembers(ps);
    NormalizedSorted(ps);
    SortedUnique(qs);
    forall j | 0 <= j < |qs|
      ensures IsValue(qs[j].value)
      ensures Valid(Obj(ps), depth) ==> KeyOk(qs[j].key) && Valid(qs[j].value, depth + 1)
    {
      assert qs[j] in qs;
      var i :| 0 <= i < |ps| && qs[j] == Norm(ps[i]);
    }
  }

  /** Sorting keys keeps values values, and validated payloads validated. */
  lemma {:induction false} NormalizeKeeps(v: Json, depth: nat)
    requires IsValue(v)
    ensures IsValue(Normalize(v))
    ensures Valid(v, depth) ==> Valid(Normalize(v), depth)
    decreases v
  {
    match v
    case Arr(xs) =>
      NormalizedItems(xs);
      forall i | 0 <= i < |xs|
        ensures IsValue(NormalizeItems(xs)[i])
        ensures Valid(xs[i], depth + 1) ==> Valid(NormalizeItems(xs)[i], depth + 1)
      {
        NormalizeKeeps(xs[i], depth + 1);
      }
      ItemsKept(xs, NormalizeItems(xs), depth);
    case Obj(ps) =>
      var qs := NormalizePairs(ps);
      forall i | 0 <= i < |ps|
        ensures IsValue(Norm(ps[i]).value)
        ensures Valid(ps[i].value, depth + 1) ==> Valid(Norm(ps[i]).value, depth + 1)
      {
        NormalizeKeeps(ps[i].value, depth + 1);
      }
      PairsKept(ps, depth);
    case _ =>
  }

  // ------------------------------------------------------------------ round trip

  /** Reading printed text back gives the value. */
  lemma LoadsEmitted(v: Json)
    requires IsValue(v)
    ensures StrictLoads(Emit(v)) == Some(v) && Emit(v) != ""
  {
    ParseEmitted(v, "");
    EmitHead(v);
    assert Emit(v) + "" == Emit(v) && Skip(Emit(v)) == Emit(v);
  }

  /** Reading canonical text back gives the value, up to object key order. */
  lemma RoundTrip(v: Json)
    requires IsValue(v)
    ensures StrictLoads(CanonicalText(v)) == Some(Normalize(v))
  {
    NormalizeKeeps(v, 0);
    LoadsEmitted(Normalize(v));
  }

  /** A validated payload survives serialization, and the text has sorted unique keys. */
  lemma CanonicalRoundTrip(v: Json)
    requires IsValue(v)
    ensures CanonicalBytes(v).Some? <==> Valid(v, 0)
    ensures Valid(v, 0) ==>
              && StrictLoads(CanonicalBytes(v).value) == Some(Normalize(v))
              && Equal(v, Normalize(v))
              && Valid(Normalize(v), 0)
  {
    RoundTrip(v);
    NormalizeKeeps(v, 0);
    NormalizeIdempotent(v);
    EqualIffNormalizeEqual(v, Normalize(v));
  }

  /** A sorted list is determined by its members. */
  lemma {:induction false} SortedDetermined(a: seq<Member>, b: seq<Member>)
    requires Sorted(a) && Sorted(b) && |a| == |b|
    requires forall m :: m in a <==> m in b
    ensures a == b
  {
    if a != [] && b != [] {
      assert a[0] in a && b[0] in b;
      var i :| 0 <= i < |b| && b[i] == a[0];
      var j :| 0 <= j < |a| && a[j] == b[0];
      if i > 0 && j > 0 { LessTotal(a[0].key, b[0].key); }
      assert a[0] == b[0];
      forall m ensures m in a[1..] <==> m in b[1..] {
        TailMember(a, m);
        TailMember(b, m);
      }
      SortedDetermined(a[1..], b[1..]);
    }
  }

  lemma TailMember(a: seq<Member>, m: Member)
    requires Sorted(a) && a != []
    ensures m in a[1..] <==> m in a && m != a[0]
  {
    assert a == [a[0]] + a[1..];
    forall i | 0 < i < |a| ensures a[i] != a[0] {
      LessTotal(a[0].key, a[i].key);
    }
  }

  ghost function Keys(ps: seq<Member>): set<string> { set m | m in ps :: m.key }

  /** The same value, where dicts compare by key, order aside. */
  ghost predicate Equal(v: Json, w: Json)
    decreases v
  {
    match (v, w)
    case (Arr(xs), Arr(ys)) => |xs| == |ys| && forall i | 0 <= i < |xs| :: Equal(xs[i], ys[i])
    case (Obj(ps), Obj(qs)) =>
      && |ps| == |qs|
      && Keys(ps) == Keys(qs)
      && forall i, j | 0 <= i < |ps| && 0 <= j < |qs| && ps[i].key == qs[j].key :: Equal(ps[i].value, qs[j].value)
    case _ => v == w
  }

  lemma {:induction false} EqualIffNormalizeEqual(v: Json, w: Json)
    requires IsValue(v) && IsValue(w)
    ensures Equal(v, w) <==> Normalize(v) == Normalize(w)
    decreases v
  {
    if v.Arr? && w.Arr? {
      NormalizedItems(v.items);
      NormalizedItems(w.items);
      if |v.items| == |w.items| {
        forall i | 0 <= i < |v.items|
          ensures Equal(v.items[i], w.items[i]) <==> NormalizeItems(v.items)[i] == NormalizeItems(w.items)[i]
        {
          EqualIffNormalizeEqual(v.items[i], w.items[i]);
        }
      }
    } else if v.Obj? && w.Obj? {
      forall i, j | 0 <= i < |v.pairs| && 0 <= j < |w.pairs|
        ensures Equal(v.pairs[i].value, w.pairs[j].value)
                <==> Normalize(v.pairs[i].value) == Normalize(w.pairs[j].value)
      {
        EqualIffNormalizeEqual(v.pairs[i].value, w.pairs[j].value);
      }
      SameMembers(v.pairs, w.pairs);
    }
  }

  ghost predicate Agree(ps: seq<Member>, qs: seq<Member>) {
    forall i, j | 0 <= i < |ps| && 0 <= j < |qs| && ps[i].key == qs[j].key ::
      Normalize(ps[i].value) == Normalize(qs[j].value)
  }

  lemma SameMembers(ps: seq<Member>, qs: seq<Member>)
    requires UniqueKeys(ps) && UniqueKeys(qs)
    ensures |ps| == |qs| && Keys(ps) == Keys(qs) && Agree(ps, qs)
            <==> NormalizePairs(ps) == NormalizePairs(qs)
  {
    NormalizedSorted(ps);
    NormalizedSorted(qs);
    if |ps| == |qs| && Keys(ps) == Keys(qs) && Agree(ps, qs) {
      AgreeSubset(ps, qs);
      AgreeSubset(qs, ps);
      SortedDetermined(NormalizePairs(ps), NormalizePairs(qs));
    }
    if NormalizePairs(ps) == NormalizePairs(qs) {
      SubsetAgree(ps, qs);
      SubsetAgree(qs, ps);
    }
  }

  lemma AgreeSubset(ps: seq<Member>, qs: seq<Member>)
    requires Keys(ps) <= Keys(qs) && Agree(ps, qs)
    ensures forall m | m in NormalizePairs(ps) :: m in NormalizePairs(qs)
  {
    NormalizedMembers(ps);
    NormalizedMembers(qs);
    forall m | m in NormalizePairs(ps) ensures m in NormalizePairs(qs) {
      var i :| 0 <= i < |ps| && m == Norm(ps[i]);
      assert ps[i].key in Keys(ps);
      var q :| q in qs && q.key == ps[i].key;
      var j :| 0 <= j < |qs| && qs[j] == q;
      assert Norm(qs[j]) == m;
    }
  }

  lemma SubsetAgree(ps: seq<Member>, qs: seq<Member>)
    requires UniqueKeys(qs)
    requires forall m | m in NormalizePairs(ps) :: m in NormalizePairs(qs)
    ensures Keys(ps) <= Keys(qs) && Agree(ps, qs)
  {
    NormalizedMembers(ps);
    NormalizedMembers(qs);
    forall i | 0 <= i < |ps|
      ensures exists j | 0 <= j < |qs| :: Norm(ps[i]) == Norm(qs[j])
    {
      assert Norm(ps[i]) in NormalizePairs(qs);
    }
    forall m | m in ps ensures m.key in Keys(qs) {
      var i :| 0 <= i < |ps| && m == ps[i];
      var j :| 0 <= j < |qs| && Norm(ps[i]) == Norm(qs[j]);
      assert qs[j] in qs;
    }
  }

  /** Two values have the same canonical text exactly when they are equal. */
  lemma CanonicalInjective(v: Json, w: Json)
    requires IsValue(v) && IsValue(w)
    ensures CanonicalText(v) == CanonicalText(w) <==> Equal(v, w)
  {
    RoundTrip(v);
    RoundTrip(w);
    EqualIffNormalizeEqual(v, w);
  }

  // ----------------------------------------------------------------- idempotence

  lemma {:induction false} SortedFixed(ps: seq<Member>)
    requires Sorted(ps) && forall i | 0 <= i < |ps| :: Normalize(ps[i].value) == ps[i].value
    ensures NormalizePairs(ps) == ps
  {
    if ps != [] {
      SortedFixed(ps[1..]);
      assert ps[0] == Norm(ps[0]);
      assert ps == [ps[0]] + ps[1..];
      if |ps| > 1 { assert ps[1..][0] == ps[1]; }
    }
  }

  lemma {:induction false} NormalizeIdempotent(v: Json)
    requires IsValue(v)
    ensures Normalize(Normalize(v)) == Normalize(v)
    decreases v
  {
    match v
    case Arr(xs) =>
      var ys := NormalizeItems(xs);
      NormalizedItems(xs);
      NormalizedItems(ys);
      forall i | 0 <= i < |xs| ensures Normalize(ys[i]) == ys[i] {
        NormalizeIdempotent(xs[i]);
      }
    case Obj(ps) =>
      var qs := NormalizePairs(ps);
      NormalizedMembers(ps);
      NormalizedSorted(ps);
      forall j | 0 <= j < |qs| ensures Normalize(qs[j].value) == qs[j].value {
        assert qs[j] in qs;
        var i :| 0 <= i < |ps| && qs[j] == Norm(ps[i]);
        NormalizeIdempotent(ps[i].value);
      }
      SortedFixed(qs);
    case _ =>
  }
}
