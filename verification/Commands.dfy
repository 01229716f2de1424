/** Command prioritization (clause 19.2 of ANSI/ASHRAE 135-2024): sixteen slots, a default, and
    what the winner is in terms of the history of commands. */
module Commands {
  import opened Octets

  datatype Command<V> = Write(priority: int, value: V) | Relinquish(priority: int)

  /** Anything outside 1..16 acts as 16, the lowest priority. */
  function EffectivePriority(priority: int): (p: int)
    ensures 1 <= p <= 16
  {
    if 1 <= priority <= 16 then priority else 16
  }

  function Priority<V>(c: Command<V>): int { EffectivePriority(c.priority) }

  function NoSlots<V>(): (s: seq<Option<V>>)
    ensures |s| == 16
  {
    seq(16, _ => None)
  }

  function Apply<V>(s: seq<Option<V>>, c: Command<V>): (r: seq<Option<V>>)
    requires |s| == 16
    ensures |r| == 16
  {
    s[Priority(c) - 1 := if c.Write? then Some(c.value) else None]
  }

  function Run<V>(s: seq<Option<V>>, history: seq<Command<V>>): (r: seq<Option<V>>)
    requires |s| == 16
    ensures |r| == 16
  {
    if history == [] then s else Apply(Run(s, history[..|history| - 1]), history[|history| - 1])
  }

  /** The first slot that is set, else the default. */
  function FirstSet<V>(s: seq<Option<V>>, default: V): V {
    if s == [] then default else if s[0].Some? then s[0].value else FirstSet(s[1..], default)
  }

  // ---- the winner in terms of the history ----

  /** The command is one for slot `p`: it names that priority, or it names none of the sixteen and
      `p` is the last. */
  predicate Addresses<V>(c: Command<V>, p: int) {
    c.priority == p || (p == 16 && !(1 <= c.priority <= 16))
  }

  lemma AddressesItsSlot<V>(c: Command<V>, p: int)
    requires 1 <= p <= 16
    ensures Addresses(c, p) <==> p == Priority(c)
  {
  }

  /** `i` is the latest command for slot `p`. */
  ghost predicate Latest<V>(history: seq<Command<V>>, p: int, i: int) {
    && 0 <= i < |history| && Addresses(history[i], p)
    && forall j | i < j < |history| :: !Addresses(history[j], p)
  }

  /** The latest command at `p` writes `v`. */
  ghost predicate Commanded<V>(history: seq<Command<V>>, p: int, v: V) {
    exists i :: Latest(history, p, i) && history[i].Write? && history[i].value == v
  }

  /** The latest command at `p` is a write. */
  ghost predicate Held<V>(history: seq<Command<V>>, p: int) {
    exists i :: Latest(history, p, i) && history[i].Write?
  }

  /** Clause 19.2: the value last written at the smallest priority whose latest command is a
      write; the Relinquish_Default when there is no such priority. */
  ghost predicate Wins<V>(history: seq<Command<V>>, default: V, v: V) {
    || (exists p | 1 <= p <= 16 :: Commanded(history, p, v) && forall q | 1 <= q < p :: !Held(history, q))
    || (v == default && forall q | 1 <= q <= 16 :: !Held(history, q))
  }

  /** A slot holds what the latest command at its priority wrote. */
  lemma {:induction false} SlotHistory<V>(history: seq<Command<V>>, p: int, v: V)
    requires 1 <= p <= 16
    ensures Run(NoSlots(), history)[p - 1] == Some(v) <==> Commanded(history, p, v)
  {
    if history != [] {
      var k := |history| - 1;
      var before, last := history[..k], history[k];
      SlotHistory(before, p, v);
      AddressesItsSlot(last, p);
      if Addresses(last, p) {
        assert Latest(history, p, k);
        assert forall i :: Latest(history, p, i) ==> i == k;
      } else {
        assert forall i {:trigger Latest(history, p, i)} ::
            Latest(history, p, i) ==> Latest(before, p, i) && history[i] == before[i];
        assert forall i {:trigger Latest(before, p, i)} ::
            Latest(before, p, i) ==> Latest(history, p, i) && history[i] == before[i];
      }
    }
  }

  lemma HeldIff<V>(history: seq<Command<V>>, p: int)
    requires 1 <= p <= 16
    ensures Run(NoSlots(), history)[p - 1].Some? <==> Held(history, p)
  {
    hide Run;
    var slot := Run(NoSlots(), history)[p - 1];
    if slot.Some? {
      SlotHistory(history, p, slot.value);
    }
    if Held(history, p) {
      var i :| Latest(history, p, i) && history[i].Write?;
      assert Commanded(history, p, history[i].value);
      SlotHistory(history, p, history[i].value);
    }
  }

  /** The first set slot, found by searching down from slot `k`. */
  lemma {:induction false} FirstSetIs<V>(s: seq<Option<V>>, default: V, k: nat)
    requires k <= |s| && forall q | 0 <= q < k :: s[q].None?
    ensures FirstSet(s, default) == FirstSet(s[k..], default)
    decreases k
  {
    if k == 0 {
      assert s[0..] == s;
    } else {
      FirstSetIs(s[1..], default, k - 1);
      assert s[1..][k - 1..] == s[k..];
    }
  }

  ghost predicate IsFirst<V>(s: seq<Option<V>>, k: int) {
    0 <= k < |s| && s[k].Some? && forall q | 0 <= q < k :: s[q].None?
  }

  lemma FirstSetCases<V>(s: seq<Option<V>>, default: V)
    ensures forall k :: IsFirst(s, k) ==> FirstSet(s, default) == s[k].value
    ensures (forall q | 0 <= q < |s| :: s[q].None?) ==> FirstSet(s, default) == default
    ensures (exists k :: IsFirst(s, k)) || forall q | 0 <= q < |s| :: s[q].None?
  {
    forall k | IsFirst(s, k)
      ensures FirstSet(s, default) == s[k].value
    {
      FirstSetIs(s, default, k);
    }
    if forall q | 0 <= q < |s| :: s[q].None? {
      FirstSetIs(s, default, |s|);
      assert s[|s|..] == [];
    } else {
      var q: nat :| q < |s| && s[q].Some?;
      var k := Smallest(s, q);
    }
  }

  lemma {:induction false} Smallest<V>(s: seq<Option<V>>, q: nat) returns (k: nat)
    requires q < |s| && s[q].Some?
    ensures IsFirst(s, k)
  {
    if j: nat :| j < q && s[j].Some? {
      k := Smallest(s, j);
    } else {
      k := q;
    }
  }

  function Slot<V>(s: seq<Option<V>>, p: int): Option<V>
    requires |s| == 16 && 1 <= p <= 16
  {
    s[p - 1]
  }

  /** What the slots say about one value, said of the history. */
  ghost predicate Recorded<V>(s: seq<Option<V>>, history: seq<Command<V>>, p: int, v: V)
    requires |s| == 16 && 1 <= p <= 16
  {
    (Slot(s, p).Some? <==> Held(history, p)) && (Slot(s, p) == Some(v) <==> Commanded(history, p, v))
  }

  lemma WinnerOfRecord<V>(s: seq<Option<V>>, history: seq<Command<V>>, default: V, v: V)
    requires |s| == 16 && forall p | 1 <= p <= 16 :: Recorded(s, history, p, v)
    ensures Wins(history, default, v) <==> v == FirstSet(s, default)
  {
    hide Commanded, Held, FirstSet;
    FirstSetCases(s, default);
    assert forall p | 1 <= p <= 16 :: Recorded(s, history, p, v) ==> (s[p - 1] == Slot(s, p));
    if k :| IsFirst(s, k) {
      assert Recorded(s, history, k + 1, v);
      forall q | 1 <= q < k + 1
        ensures !Held(history, q)
      {
        assert Recorded(s, history, q, v) && s[q - 1].None?;
      }
      if p :| 1 <= p <= 16 && Commanded(history, p, v) && forall q | 1 <= q < p :: !Held(history, q) {
        assert Recorded(s, history, p, v);
        assert p == k + 1;
      }
    } else {
      forall q | 1 <= q <= 16
        ensures !Held(history, q) && !Commanded(history, q, v)
      {
        assert Recorded(s, history, q, v) && s[q - 1].None?;
      }
    }
  }

  /** The recomputed winner is the winner of clause 19.2, after every history. */
  lemma WinnerOfHistory<V>(history: seq<Command<V>>, default: V, v: V)
    ensures Wins(history, default, v) <==> v == FirstSet(Run(NoSlots(), history), default)
  {
    hide Run, Commanded, Held, FirstSet, Wins;
    var s := Run(NoSlots(), history);
    forall p | 1 <= p <= 16
      ensures Recorded(s, history, p, v)
    {
      HeldIff(history, p);
      SlotHistory(history, p, v);
    }
    WinnerOfRecord(s, history, default, v);
  }

  /** A history grows by the command an event gives, if it gives one. */
  lemma RunOneMore<V>(history: seq<Command<V>>, c: Option<Command<V>>)
    ensures Run(NoSlots(), history + (if c.Some? then [c.value] else [])) ==
            match c case Some(x) => Apply(Run(NoSlots(), history), x) case None => Run(NoSlots(), history)
  {
    if c.Some? {
      assert (history + [c.value])[..|history|] == history;
    } else {
      assert history + [] == history;
    }
  }

  // ---- order matters only within one priority ----

  /** Commands for different slots commute. */
  lemma ApplyCommutes<V>(s: seq<Option<V>>, a: Command<V>, b: Command<V>)
    requires |s| == 16 && forall p | 1 <= p <= 16 :: !(Addresses(a, p) && Addresses(b, p))
    ensures Apply(Apply(s, a), b) == Apply(Apply(s, b), a)
  {
    AddressesItsSlot(a, Priority(a));
    AddressesItsSlot(b, Priority(a));
  }

  /** The commands for one slot, in order. */
  function AtPriority<V>(history: seq<Command<V>>, p: int): seq<Command<V>> {
    if history == [] then [] else
    var last := history[|history| - 1];
    AtPriority(history[..|history| - 1], p) + (if Addresses(last, p) then [last] else [])
  }

  lemma {:induction false} SlotOfProjection<V>(s: seq<Option<V>>, history: seq<Command<V>>, p: int)
    requires |s| == 16 && 1 <= p <= 16
    ensures var own := AtPriority(history, p);
            Run(s, history)[p - 1] ==
            if own == [] then s[p - 1]
            else if own[|own| - 1].Write? then Some(own[|own| - 1].value) else None
  {
    if history != [] {
      SlotOfProjection(s, history[..|history| - 1], p);
      AddressesItsSlot(history[|history| - 1], p);
    }
  }

  /** Two histories that give every priority the same commands in the same order leave the same
      slots, however the priorities are interleaved. */
  lemma InterleavingIrrelevant<V>(s: seq<Option<V>>, h1: seq<Command<V>>, h2: seq<Command<V>>)
    requires |s| == 16 && forall p | 1 <= p <= 16 :: AtPriority(h1, p) == AtPriority(h2, p)
    ensures Run(s, h1) == Run(s, h2)
  {
    hide Run, AtPriority;
    forall i | 0 <= i < 16
      ensures Run(s, h1)[i] == Run(s, h2)[i]
    {
      assert AtPriority(h1, i + 1) == AtPriority(h2, i + 1);
      SlotOfProjection(s, h1, i + 1);
      SlotOfProjection(s, h2, i + 1);
    }
  }

  /** Slots of values of one kind, carried over to another. */
  function MapSlots<V, W>(s: seq<Option<V>>, f: V -> W): (r: seq<Option<W>>)
    ensures |r| == |s|
  {
    seq(|s|, i requires 0 <= i < |s| => if s[i].Some? then Some(f(s[i].value)) else None)
  }

  lemma {:induction false} MapFirstSet<V, W>(s: seq<Option<V>>, default: V, f: V -> W)
    ensures FirstSet(MapSlots(s, f), f(default)) == f(FirstSet(s, default))
  {
    if s != [] {
      MapFirstSet(s[1..], default, f);
      assert MapSlots(s, f)[1..] == MapSlots(s[1..], f);
    }
  }

  // ---- main.ts ----

  /** A commandable value: isSet and value say what each slot holds. */
  class Commandable {
    const isSet: array<bool>
    const value: array<real>
    const relinquishDefault: real

    ghost predicate Valid()
      reads this
    {
      isSet.Length == 16 && value.Length == 16
    }

    ghost function Slots(): (s: seq<Option<real>>)
      requires Valid()
      reads this, isSet, value
      ensures |s| == 16
    {
      seq(16, i requires 0 <= i < 16 && Valid() reads this, isSet, value => if isSet[i] then Some(value[i]) else None)
    }

    constructor (default: real)
      ensures Valid() && fresh(isSet) && fresh(value)
      ensures relinquishDefault == default && Slots() == NoSlots()
    {
      isSet := new bool[16](_ => false);
      value := new real[16](_ => 0.0);
      relinquishDefault := default;
    }

    method CommandWrite(priority: int, v: real)
      requires Valid()
      modifies isSet, value
      ensures Slots() == Apply(old(Slots()), Write(priority, v))
    {
      var p := EffectivePriority(priority);
      isSet[p - 1] := true;
      value[p - 1] := v;
    }

    method CommandRelinquish(priority: int)
      requires Valid()
      modifies isSet
      ensures Slots() == Apply(old(Slots()), Relinquish(priority))
    {
      var p := EffectivePriority(priority);
      isSet[p - 1] := false;
    }

    method ResolvedCommand() returns (v: real)
      requires Valid()
      ensures v == FirstSet(Slots(), relinquishDefault)
    {
      FirstSetCases(Slots(), relinquishDefault);
      for slot := 0 to 16
        invariant forall q | 0 <= q < slot :: Slots()[q].None?
      {
        if isSet[slot] {
          assert IsFirst(Slots(), slot);
          return value[slot];
        }
      }
      return relinquishDefault;
    }
  }
}
