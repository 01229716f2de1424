/** Command prioritization is implemented twice, in the controller and in the simulated peer:
    given the same commands they serve the same value. */
module Agreement {
  import opened Octets
  import opened Values
  import opened Commands
  import opened Server
  import opened ServerRuns
  import Actuator

  /** The same command, given to the peer as octets and to the controller as a number. */
  ghost predicate SameCommand(a: Command<octets>, b: Command<real>, encode: real -> octets) {
    && (forall p | 1 <= p <= 16 :: Addresses(a, p) <==> Addresses(b, p))
    && (a.Write? <==> b.Write?) && (a.Write? ==> a.value == encode(b.value))
  }

  ghost predicate SameCommands(a: seq<Command<octets>>, b: seq<Command<real>>, encode: real -> octets) {
    |a| == |b| && forall i | 0 <= i < |a| :: SameCommand(a[i], b[i], encode)
  }

  lemma {:induction false} SameSlots(a: seq<Command<octets>>, b: seq<Command<real>>, encode: real -> octets)
    requires SameCommands(a, b, encode)
    ensures Run(NoSlots(), a) == MapSlots(Run(NoSlots(), b), encode)
  {
    if a != [] {
      var k := |a| - 1;
      SameSlots(a[..k], b[..k], encode);
      assert SameCommand(a[k], b[k], encode);
      AddressesItsSlot(a[k], Priority(a[k]));
      AddressesItsSlot(b[k], Priority(a[k]));
    }
  }

  /** Driven by the same accepted commands, the peer's cached Present_Value stays equal to the
      winner that the controller recomputes from its own slots on each use: any run of the peer
      and any run of main.ts, key presses, ticks and refused writes included, that accept the
      same commands for an output. */
  lemma TwoImplementationsAgree(s: Peer, es: seq<Event>, key: ObjectKey, encode: real -> octets,
                                me: nat, round: real -> real, acts: seq<Actuator.Event>, o: Actuator.Output)
    requires s.Valid() && s.Cached() && s.IsCommandable(key) && s.slots[key] == NoSlots() && InSlots(s, es)
    requires s.defaults[key] == encode(Actuator.Default(o))
    requires SameCommands(Accepted(s, es, key), Actuator.CommandsTo(me, acts, o), encode)
    ensures Reach(s, es).Served(key, PROPERTY_PRESENT_VALUE) ==
            Some(encode(Actuator.Steps(me, round, Actuator.Initial(round), acts).Winner(o)))
  {
    hide Reach, Accepted, Run, FirstSet, SameCommands, InSlots, Actuator.Steps, Actuator.CommandsTo, Wins;
    var cs := Actuator.CommandsTo(me, acts, o);
    ReachableCache(s, es, key);
    SameSlots(Accepted(s, es, key), cs, encode);
    MapFirstSet(Run(NoSlots(), cs), Actuator.Default(o), encode);
    Actuator.OutputHistory(me, round, acts, o);
    assert Reach(s, es).IsCommandable(key);
  }
}
