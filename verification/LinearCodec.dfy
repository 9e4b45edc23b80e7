/** The type registry of codec/linearcodec/codec.go: consecutive type IDs, some of them skipped. */
module LinearCodec {
  import opened Options
  import opened BigEndian
  import opened Codec

  const IDS := 0x1_0000_0000

  datatype Registry = Registry(next: nat, names: map<nat, Name>, ids: map<Name, nat>)

  const Fresh := Registry(0, map[], map[])

  /** None: the type has already been registered. */
  function Register(r: Registry, t: Name): Option<Registry> {
    if t in r.ids then None else Some(Registry((r.next + 1) % IDS, r.names[r.next := t], r.ids[t := r.next]))
  }

  /** uint32 addition, for any int. */
  function Skip(r: Registry, num: int): Registry {
    r.(next := (r.next + num) % IDS)
  }

  ghost predicate Inverse(r: Registry) {
    && (forall t :: t in r.ids ==> r.ids[t] < IDS && r.ids[t] in r.names && r.names[r.ids[t]] == t)
    && (forall i :: i in r.names ==> r.names[i] in r.ids && r.ids[r.names[i]] == i)
  }

  /** A registration keeps the two maps inverse exactly when its type ID is not taken: IDs can come
      back after a wrap-around or a negative skip. */
  lemma RegisterKeepsInverse(r: Registry, t: Name)
    requires Inverse(r) && r.next < IDS && t !in r.ids
    ensures Inverse(Register(r, t).value) <==> r.next !in r.names
  {
    var r' := Register(r, t).value;
    if r.next in r.names {
      var u := r.names[r.next];
      assert u in r'.ids && r'.ids[u] == r.next && r'.names[r.next] == t;
    }
  }

  /** The case that fails: register, step back, register. */
  lemma StepBackOverwrites(t: Name, u: Name)
    requires t != u
    ensures var r := Register(Fresh, t).value;
            var r' := Register(Skip(r, -1), u).value;
            Inverse(r) && r'.ids[t] == r'.ids[u] && !Inverse(r')
  {
    var r := Register(Fresh, t).value;
    var r' := Register(Skip(r, -1), u).value;
    assert Skip(r, -1).next == 0;
    assert t in r'.ids && r'.names[r'.ids[t]] == u;
  }

  // ---- runs ---------------------------------------------------------------------------------

  datatype Call = RegisterCall(name: Name) | SkipCall(num: int)

  function Run(calls: seq<Call>): Registry {
    if calls == [] then Fresh
    else
      var r := Run(calls[..|calls| - 1]);
      match calls[|calls| - 1]
      case RegisterCall(t) => var r' := Register(r, t); if r'.Some? then r'.value else r
      case SkipCall(num) => Skip(r, num)
  }

  /** How many IDs the calls use up. */
  function Used(calls: seq<Call>): int {
    if calls == [] then 0
    else Used(calls[..|calls| - 1]) + (match calls[|calls| - 1] case RegisterCall(_) => 1 case SkipCall(num) => num)
  }

  /** Forward skips only, and no more IDs than there are. */
  predicate Plain(calls: seq<Call>) {
    Used(calls) < IDS && forall i :: 0 <= i < |calls| && calls[i].SkipCall? ==> calls[i].num >= 0
  }

  lemma {:induction false} UsedGrows(calls: seq<Call>)
    requires forall i :: 0 <= i < |calls| && calls[i].SkipCall? ==> calls[i].num >= 0
    ensures Used(calls) >= 0
  {
    if calls != [] {
      assert forall i :: 0 <= i < |calls| - 1 ==> calls[..|calls| - 1][i] == calls[i];
      UsedGrows(calls[..|calls| - 1]);
    }
  }

  ghost predicate Below(r: Registry) {
    forall i :: i in r.names ==> i < r.next
  }

  lemma RegisterStep(r: Registry, t: Name)
    requires Inverse(r) && Below(r) && r.next + 1 < IDS && t !in r.ids
    ensures var r' := Register(r, t).value; Inverse(r') && Below(r') && r'.next == r.next + 1
  {
    RegisterKeepsInverse(r, t);
  }

  lemma SkipStep(r: Registry, num: nat)
    requires Inverse(r) && Below(r) && r.next + num < IDS
    ensures var r' := Skip(r, num); Inverse(r') && Below(r') && r'.next == r.next + num
  {
  }

  /** After any such calls every type has its own ID and the two maps are inverse. */
  lemma {:induction false} RunKeepsInverse(calls: seq<Call>)
    requires Plain(calls)
    ensures Inverse(Run(calls)) && Below(Run(calls)) && Run(calls).next <= Used(calls)
  {
    if calls != [] {
      var n := |calls| - 1;
      assert forall i :: 0 <= i < n ==> calls[..n][i] == calls[i];
      UsedGrows(calls[..n]);
      RunKeepsInverse(calls[..n]);
      var r := Run(calls[..n]);
      match calls[n]
      case RegisterCall(t) => if t !in r.ids { RegisterStep(r, t); }
      case SkipCall(num) => SkipStep(r, num);
    }
  }

  // ---- which ID a type gets ----

  /** The type IDs used up, counted without a limit: one for each type the first time, and the skips. */
  function Taken(calls: seq<Call>): int {
    if calls == [] then 0
    else
      var before := calls[..|calls| - 1];
      Taken(before) +
      match calls[|calls| - 1]
      case RegisterCall(t) => if RegisterCall(t) in before then 0 else 1
      case SkipCall(num) => num
  }

  /** The ID that was next when the type was registered for the first time. */
  function IdOf(calls: seq<Call>, t: Name): Option<nat> {
    if calls == [] then None
    else
      var before := calls[..|calls| - 1];
      if RegisterCall(t) in before then IdOf(before, t)
      else if calls[|calls| - 1] == RegisterCall(t) then Some(Taken(before) % IDS)
      else None
  }

  /** The type that got the ID last. */
  function NameOf(calls: seq<Call>, i: nat): Option<Name> {
    if calls == [] then None
    else
      var before, call := calls[..|calls| - 1], calls[|calls| - 1];
      if call.RegisterCall? && call !in before && Taken(before) % IDS == i then Some(call.name) else NameOf(before, i)
  }

  lemma AddModulo(x: int, num: int)
    ensures (x % IDS + num) % IDS == (x + num) % IDS
  {
  }

  /** After any calls, with any skips: the first registration of a type gives it the next ID modulo 2^32, later ones
      change nothing, and an ID stands for the type that got it last. */
  lemma {:induction false} RunAssigns(calls: seq<Call>)
    ensures var r := Run(calls);
            && r.next == Taken(calls) % IDS
            && (forall t :: (t in r.ids <==> RegisterCall(t) in calls) && IdOf(calls, t) == if t in r.ids then Some(r.ids[t]) else None)
            && (forall i: nat :: NameOf(calls, i) == if i in r.names then Some(r.names[i]) else None)
  {
    if calls != [] {
      var n := |calls| - 1;
      var before, call := calls[..n], calls[n];
      RunAssigns(before);
      assert calls == before + [call];
      AddModulo(Taken(before), if call.SkipCall? then call.num else 1);
      var r, r' := Run(before), Run(calls);
      forall t
        ensures (t in r'.ids <==> RegisterCall(t) in calls) && IdOf(calls, t) == if t in r'.ids then Some(r'.ids[t]) else None
      {
        assert (t in r.ids <==> RegisterCall(t) in before) && IdOf(before, t) == if t in r.ids then Some(r.ids[t]) else None;
      }
      forall i: nat
        ensures NameOf(calls, i) == if i in r'.names then Some(r'.names[i]) else None
      {
        assert NameOf(before, i) == if i in r.names then Some(r.names[i]) else None;
      }
    }
  }

  /** So the registry serves the codec. */
  lemma RunServesCodec(calls: seq<Call>, env: Env)
    requires Plain(calls) && env.ids == Run(calls).ids && env.names == Run(calls).names
    ensures Registered(env) && RegisteredBack(env)
  {
    RunKeepsInverse(calls);
    Ranges();
  }

  // ---- in place -----------------------------------------------------------------------------

  class TypeRegistry {
    var nextTypeID: nat
    var typeIDToType: map<nat, Name>
    var typeToTypeID: map<Name, nat>

    ghost function View(): Registry
      reads this
    {
      Registry(nextTypeID, typeIDToType, typeToTypeID)
    }

    ghost predicate Valid()
      reads this
    {
      nextTypeID < IDS
    }

    constructor ()
      ensures Valid() && View() == Fresh && Inverse(View())
    {
      nextTypeID, typeIDToType, typeToTypeID := 0, map[], map[];
    }

    /** Skipping leaves what is registered. */
    method SkipRegistrations(num: int)
      requires Valid()
      modifies this`nextTypeID
      ensures Valid() && View() == Skip(old(View()), num)
    {
      nextTypeID := (nextTypeID + num) % IDS;
    }

    /** A known type is refused; a new one keeps the maps inverse exactly when its ID is free. */
    method RegisterType(t: Name) returns (ok: bool)
      requires Valid()
      modifies this
      ensures Valid() && (ok <==> Register(old(View()), t).Some?)
      ensures View() == if ok then Register(old(View()), t).value else old(View())
      ensures ok && old(Inverse(View())) ==> (Inverse(View()) <==> old(nextTypeID) !in old(typeIDToType))
    {
      if t in typeToTypeID {
        return false;
      }
      if Inverse(View()) { RegisterKeepsInverse(View(), t); }
      typeIDToType := typeIDToType[nextTypeID := t];
      typeToTypeID := typeToTypeID[t := nextTypeID];
      nextTypeID := (nextTypeID + 1) % IDS;
      return true;
    }
  }
}
