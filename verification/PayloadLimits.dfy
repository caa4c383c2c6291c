/** What the payload and time checks of an event allow (sidecars/xtp/contracts.py), said of the
  whole value and of the whole event. */
module PayloadLimits {
  import opened Prelude
  import opened CanonicalJson
  import opened Envelopes

  // --------------------------------------------------------------------- payloads

  /** Going down a value, an index at each array or object. */
  type Path = seq<nat>

  /** What stands at the end of a path, if the value goes that deep there. */
  ghost function At(v: Json, path: Path): Option<Json>
    decreases |path|
  {
    if path == [] then Some(v)
    else
      match v
      case Arr(xs) => if path[0] < |xs| then At(xs[path[0]], path[1..]) else None
      case Obj(ps) => if path[0] < |ps| then At(ps[path[0]].value, path[1..]) else None
      case _ => None
  }

  ghost predicate NoControls(s: string) { forall c | c in s :: (c as int) >= 32 && c as int != 127 }

  /** Tab, line feed, vertical tab, form feed or carriage return. */
  ghost predicate LayoutChar(c: char) { c as int in {9, 10, 11, 12, 13} }

  /** What is allowed of one value, what it contains aside. */
  ghost predicate PartOk(v: Json) {
    match v
    case Int(n) => -0x8000_0000_0000_0000 < n < 0x8000_0000_0000_0000
    case Str(s) => |s| <= 4096 && forall c | c in s :: LayoutChar(c) || NoControls([c])
    case Arr(xs) => |xs| <= 4096
    case Obj(ps) => |ps| <= 4096 && forall p | p in ps :: 1 <= |p.key| <= 4096 && NoControls(p.key)
    case _ => true
  }

  ghost predicate LimitsKept(v: Json, depth: nat) {
    forall path | At(v, path).Some? :: depth + |path| <= 8 && PartOk(At(v, path).value)
  }

  lemma TextExact(s: string)
    ensures TextOk(s) <==> PartOk(Str(s))
  {
    if PartOk(Str(s)) {
      forall i | 0 <= i < |s| ensures !(s[i] as int < 9 || 13 < s[i] as int < 32 || s[i] as int == 127) {
        assert s[i] in s;
        assert s[i] in [s[i]];
      }
    }
  }

  lemma KeysExact(ps: seq<Member>)
    ensures PartOk(Obj(ps)) <==>
            |ps| <= 4096 && forall i | 0 <= i < |ps| :: KeyOk(ps[i].key)
  {
    if PartOk(Obj(ps)) {
      forall i | 0 <= i < |ps| ensures KeyOk(ps[i].key) {
        assert ps[i] in ps;
        forall j | 0 <= j < |ps[i].key| ensures !((ps[i].key[j] as int) < 32 || ps[i].key[j] as int == 127) {
          assert ps[i].key[j] in ps[i].key;
        }
      }
    }
  }

  /** What is valid is so at every depth below. */
  lemma {:induction false} ValidBelow(v: Json, depth: nat, path: Path)
    requires Valid(v, depth) && At(v, path).Some?
    ensures depth + |path| <= 8 && PartOk(At(v, path).value)
    decreases |path|
  {
    hide PartOk;
    if path == [] {
      TopOk(v, depth);
    } else {
      match v
      case Arr(xs) => ValidBelow(xs[path[0]], depth + 1, path[1..]);
      case Obj(ps) => ValidBelow(ps[path[0]].value, depth + 1, path[1..]);
    }
  }

  lemma TopOk(v: Json, depth: nat)
    requires Valid(v, depth)
    ensures PartOk(v)
  {
    if v.Str? { TextExact(v.s); }
    if v.Obj? { KeysExact(v.pairs); }
  }

  lemma LimitsOfChild(v: Json, i: nat, child: Json, depth: nat)
    requires LimitsKept(v, depth)
    requires (v.Arr? && i < |v.items| && child == v.items[i]) || (v.Obj? && i < |v.pairs| && child == v.pairs[i].value)
    ensures LimitsKept(child, depth + 1)
  {
    forall path | At(child, path).Some? ensures depth + 1 + |path| <= 8 && PartOk(At(child, path).value) {
      var whole := [i] + path;
      assert whole[0] == i && whole[1..] == path;
      assert At(v, whole) == At(child, path);
    }
  }

  /** A payload is accepted exactly when every value in it lies at most eight levels down and keeps
    the limits: 64-bit integers, texts and keys without control characters and of at most 4096
    characters, at most 4096 elements or members. */
  lemma {:induction false} ValidExact(v: Json, depth: nat)
    ensures Valid(v, depth) <==> LimitsKept(v, depth)
    decreases v
  {
    hide PartOk;
    if Valid(v, depth) {
      forall path | At(v, path).Some? ensures depth + |path| <= 8 && PartOk(At(v, path).value) {
        ValidBelow(v, depth, path);
      }
    }
    if LimitsKept(v, depth) {
      assert At(v, []) == Some(v);
      match v
      case Arr(xs) =>
        forall i | 0 <= i < |xs| ensures Valid(xs[i], depth + 1) {
          LimitsOfChild(v, i, xs[i], depth);
          ValidExact(xs[i], depth + 1);
        }
        LengthOk(v);
      case Obj(ps) =>
        forall i | 0 <= i < |ps| ensures Valid(ps[i].value, depth + 1) {
          LimitsOfChild(v, i, ps[i].value, depth);
          ValidExact(ps[i].value, depth + 1);
        }
        KeysExact(ps);
      case Str(s) => TextExact(s);
      case _ => LengthOk(v);
    }
  }

  lemma LengthOk(v: Json)
    requires PartOk(v)
    ensures v.Arr? ==> |v.items| <= 4096
    ensures v.Int? ==> -0x8000_0000_0000_0000 < v.n < 0x8000_0000_0000_0000
  {
  }

  // ------------------------------------------------------------------------ times

  /** The latest time an event carries. */
  ghost function Latest(e: Envelope): (t: int)
  {
    var a := if e.exchangeTimestamp.Some? then e.exchangeTimestamp.value else 0;
    var b := if e.providerTimestamp.Some? then e.providerTimestamp.value else 0;
    var m := if a < b then b else a;
    if m < e.receivedAt then e.receivedAt else m
  }

  /** The clock may be two minutes behind the latest time of an event and no more, and no source time
    may be more than two minutes after receipt. */
  lemma TimesExact(e: Envelope, now: int)
    ensures TimesOk(e, now) <==> Latest(e) <= now + 120_000_000
    ensures ReceivedLast(e) <==> Latest(e) <= e.receivedAt + 120_000_000
  {
  }
}
