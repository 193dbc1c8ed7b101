/**
 * Build orders (sc_orders.py, class BuildOrder).
 *
 * A build order keeps three lists: the log of every unit added, in order
 * (`unitOrder`, the source's `_unit_order`), the units currently active
 * (`units`, `_units`: a list with repeats, from which consumed units are
 * removed) and the unlocked tech (`tech`, `_tech`, without repeats).
 *
 * A unit record names the units it requires, the units it consumes and the
 * tech it allows. Units are compared by name: the catalog gives every unit a
 * distinct name, and a unit object stands for exactly one catalog entry.
 *
 * The pure functions `Step` and `Run` specify what one `add_unit` call and a
 * replay of several calls do to the three lists, including the exception
 * cases; the class `BuildOrder` performs the same updates in place and is
 * proved against them.
 */
module Orders {
  import opened Seqs
  import opened Wrappers

  datatype Unit = Unit(name: string, requirements: seq<string>, consumes: seq<string>, allows: seq<string>)

  /** The names of a list of units, position by position. */
  function Names(us: seq<Unit>): (r: seq<string>)
    ensures |r| == |us|
  {
    seq(|us|, i requires 0 <= i < |us| => us[i].name)
  }

  lemma {:induction false} NamesConcat(a: seq<Unit>, b: seq<Unit>)
    ensures Names(a + b) == Names(a) + Names(b)
  {
    assert forall i :: 0 <= i < |a + b| ==> Names(a + b)[i] == (Names(a) + Names(b))[i];
  }

  /** The three lists of a build order. */
  datatype OrderState = OrderState(unitOrder: seq<Unit>, units: seq<Unit>, tech: seq<string>)

  /** How an `add_unit` call ends: normally, with "requirements not met", or with a failed `remove`. */
  datatype Outcome = Done | NotMet(unit: Unit) | RemoveFailed(name: string)

  /** A new build order starts from three empty lists. */
  function Start(): OrderState {
    OrderState([], [], [])
  }

  /**
   * What every reachable state satisfies: the tech list has no repeats and
   * holds everything any logged unit allows, and every active unit was logged.
   */
  ghost predicate Inv(s: OrderState) {
    NoDup(s.tech) &&
    multiset(s.units) <= multiset(s.unitOrder) &&
    forall i, t :: 0 <= i < |s.unitOrder| && t in s.unitOrder[i].allows ==> t in s.tech
  }

  // ---------------------------------------------------------------------------
  // unit_valid
  // ---------------------------------------------------------------------------

  /**
   * `unit_valid`: every consumed unit and every required unit is active.
   * Only membership is asked for, not how many copies are active.
   */
  predicate Admits(units: seq<Unit>, u: Unit) {
    (forall c :: c in u.consumes ==> c in Names(units)) &&
    (forall r :: r in u.requirements ==> r in Names(units))
  }

  // ---------------------------------------------------------------------------
  // add_unit
  // ---------------------------------------------------------------------------

  /**
   * `list.remove`: drops the first unit with the given name, or fails (the
   * source's ValueError) when there is none.
   */
  function RemoveFirst(us: seq<Unit>, name: string): (r: Option<seq<Unit>>)
    ensures r.None? <==> name !in Names(us)
    ensures r.Some? ==> |r.value| + 1 == |us|
  {
    if us == [] then None
    else
      assert us == [us[0]] + us[1..];
      NamesConcat([us[0]], us[1..]);
      assert Names(us)[0] == us[0].name;
      if us[0].name == name then Some(us[1..])
      else match RemoveFirst(us[1..], name)
      case None => None
      case Some(rest) => Some([us[0]] + rest)
  }

  /** A successful removal takes away exactly one unit, one carrying the name. */
  lemma {:induction false} RemoveFirstCounts(us: seq<Unit>, name: string)
    requires RemoveFirst(us, name).Some?
    ensures multiset(Names(RemoveFirst(us, name).value)) + multiset{name} == multiset(Names(us))
    ensures multiset(RemoveFirst(us, name).value) <= multiset(us)
  {
    assert us == [us[0]] + us[1..];
    NamesConcat([us[0]], us[1..]);
    assert Names([us[0]]) == [us[0].name];
    assert multiset(Names(us)) == multiset{us[0].name} + multiset(Names(us[1..]));
    assert multiset(us) == multiset{us[0]} + multiset(us[1..]);
    if us[0].name != name {
      var rest := RemoveFirst(us[1..], name).value;
      RemoveFirstCounts(us[1..], name);
      NamesConcat([us[0]], rest);
      assert multiset(Names([us[0]] + rest)) == multiset{us[0].name} + multiset(Names(rest));
    }
  }

  /** Removing the first unit named `name` at position `i` leaves the rest in order. */
  lemma {:induction false} RemoveFirstAt(us: seq<Unit>, name: string, i: nat)
    requires i < |us| && us[i].name == name
    requires forall j :: 0 <= j < i ==> us[j].name != name
    ensures RemoveFirst(us, name) == Some(us[..i] + us[i + 1..])
  {
    if i == 0 {
      assert us[..0] + us[1..] == us[1..];
    } else {
      assert us[0].name != name;
      RemoveFirstAt(us[1..], name, i - 1);
      assert RemoveFirst(us, name) == Some([us[0]] + RemoveFirst(us[1..], name).value);
      assert [us[0]] + (us[1..][..i - 1] + us[1..][i..]) == us[..i] + us[i + 1..];
    }
  }

  /**
   * The `for consume in unit.consumes: self._units.remove(consume)` loop:
   * the units left and, if some remove failed, the name it failed on. The
   * removals before the failing one have already happened.
   */
  function ConsumeAll(us: seq<Unit>, cs: seq<string>): (r: (seq<Unit>, Option<string>))
    ensures r.1.Some? ==> r.1.value in cs
    decreases |cs|
  {
    if cs == [] then (us, None)
    else
      match RemoveFirst(us, cs[0])
      case None => (us, Some(cs[0]))
      case Some(rest) => ConsumeAll(rest, cs[1..])
  }

  /**
   * The consume loop gets through exactly when every name is present at
   * least as often as it is consumed; the names left are then the old names
   * less those consumed. Either way no unit is added.
   */
  lemma {:induction false} ConsumeAllCounts(us: seq<Unit>, cs: seq<string>)
    ensures ConsumeAll(us, cs).1.None? <==> multiset(cs) <= multiset(Names(us))
    ensures ConsumeAll(us, cs).1.None? ==>
      multiset(Names(ConsumeAll(us, cs).0)) + multiset(cs) == multiset(Names(us))
    ensures multiset(ConsumeAll(us, cs).0) <= multiset(us)
    decreases |cs|
  {
    if cs != [] {
      assert cs == [cs[0]] + cs[1..];
      assert multiset(cs) == multiset(cs[1..]) + multiset{cs[0]};
      match RemoveFirst(us, cs[0])
      case None =>
        assert multiset(Names(us))[cs[0]] == 0 < multiset(cs)[cs[0]];
      case Some(rest) =>
        RemoveFirstCounts(us, cs[0]);
        ConsumeAllCounts(rest, cs[1..]);
        MultisetCancel(multiset(cs[1..]), multiset(Names(rest)), cs[0]);
    }
  }

  /** Adding the same element on both sides does not change inclusion. */
  lemma MultisetCancel<T>(a: multiset<T>, b: multiset<T>, x: T)
    ensures a + multiset{x} <= b + multiset{x} <==> a <= b
  {
    if a + multiset{x} <= b + multiset{x} {
      forall y ensures a[y] <= b[y] {
        assert (a + multiset{x})[y] <= (b + multiset{x})[y];
      }
    }
  }

  /** Consuming `cs` and then `c` is consuming `cs + [c]`, as long as nothing failed on `cs`. */
  lemma {:induction false} ConsumeAllSnoc(us: seq<Unit>, cs: seq<string>, c: string)
    requires ConsumeAll(us, cs).1.None?
    ensures ConsumeAll(us, cs + [c]) ==
      match RemoveFirst(ConsumeAll(us, cs).0, c)
      case None => (ConsumeAll(us, cs).0, Some(c))
      case Some(rest) => (rest, None)
    decreases |cs|
  {
    if cs == [] {
      assert cs + [c] == [c] && [c][1..] == [];
    } else {
      assert (cs + [c])[0] == cs[0] && (cs + [c])[1..] == cs[1..] + [c];
      var rest :| RemoveFirst(us, cs[0]) == Some(rest);
      ConsumeAllSnoc(rest, cs[1..], c);
    }
  }

  /**
   * `add_unit`: a unit that is not admitted changes nothing; otherwise it is
   * logged and made active, its tech is unlocked, and the units it consumes
   * are removed one by one; a failing removal ends the call with the earlier
   * updates in place.
   */
  function Step(s: OrderState, u: Unit): (r: (OrderState, Outcome))
    ensures r.1.NotMet? <==> !Admits(s.units, u)
    ensures r.1.NotMet? ==> r == (s, NotMet(u))
    ensures !r.1.NotMet? ==> r.0.unitOrder == s.unitOrder + [u]
  {
    if !Admits(s.units, u) then (s, NotMet(u))
    else
      var (units, failed) := ConsumeAll(s.units + [u], u.consumes);
      (OrderState(s.unitOrder + [u], units, AppendNew(s.tech, u.allows)),
       if failed.Some? then RemoveFailed(failed.value) else Done)
  }

  /** An admitted unit's tech is appended to the tech list, which keeps its old entries and has no repeats. */
  lemma StepTech(s: OrderState, u: Unit)
    ensures Step(s, u).1.NotMet? || Step(s, u).0.tech == AppendNew(s.tech, u.allows)
    ensures !Step(s, u).1.NotMet? ==>
      |s.tech| <= |Step(s, u).0.tech| && Step(s, u).0.tech[..|s.tech|] == s.tech && forall t :: t in u.allows ==> t in Step(s, u).0.tech
    ensures NoDup(s.tech) ==> NoDup(Step(s, u).0.tech)
  {
    AppendNewExtends(s.tech, u.allows);
  }

  /**
   * `add_unit` returns normally exactly when the unit is admitted and every
   * consumed unit is present as often as it is consumed (counting the new
   * unit itself); the active units then gain the unit and lose what it consumes.
   */
  lemma StepDone(s: OrderState, u: Unit)
    ensures Step(s, u).1.Done? <==>
      Admits(s.units, u) && multiset(u.consumes) <= multiset(Names(s.units)) + multiset{u.name}
    ensures Step(s, u).1.Done? ==>
      multiset(Names(Step(s, u).0.units)) + multiset(u.consumes) == multiset(Names(s.units)) + multiset{u.name}
    ensures Step(s, u).1.RemoveFailed? ==> Step(s, u).1.name in u.consumes
  {
    NamesConcat(s.units, [u]);
    assert Names([u]) == [u.name];
    ConsumeAllCounts(s.units + [u], u.consumes);
  }

  /** `add_unit` keeps the invariant, whatever its outcome. */
  lemma StepInv(s: OrderState, u: Unit)
    requires Inv(s)
    ensures Inv(Step(s, u).0)
  {
    StepTech(s, u);
    var r := Step(s, u).0;
    if !Step(s, u).1.NotMet? {
      ConsumeAllCounts(s.units + [u], u.consumes);
      assert multiset(r.units) <= multiset(s.units + [u]);
      forall i, t | 0 <= i < |r.unitOrder| && t in r.unitOrder[i].allows ensures t in r.tech {
        if i < |s.unitOrder| {
          assert r.unitOrder[i] == s.unitOrder[i];
          assert t in s.tech;
          assert t in r.tech[..|s.tech|];
        }
      }
    }
  }

  /**
   * Adds the units in order, as the constructor does; the first exception
   * ends the replay and is passed on.
   */
  function Run(s: OrderState, us: seq<Unit>): (r: (OrderState, Outcome))
    ensures r.1.Done? ==> r.0.unitOrder == s.unitOrder + us
    decreases |us|
  {
    if us == [] then (s, Done)
    else
      var (s1, outcome) := Step(s, us[0]);
      if outcome.Done? then
        var r := Run(s1, us[1..]);
        assert s.unitOrder + us == s.unitOrder + [us[0]] + us[1..];
        r
      else (s1, outcome)
  }

  /** A replay keeps the invariant, however it ends. */
  lemma {:induction false} RunInv(s: OrderState, us: seq<Unit>)
    requires Inv(s)
    ensures Inv(Run(s, us).0)
    decreases |us|
  {
    if us != [] {
      StepInv(s, us[0]);
      if Step(s, us[0]).1.Done? {
        RunInv(Step(s, us[0]).0, us[1..]);
      }
    }
  }

  /** Replaying `xs + ys` replays `xs`, then, if that ended normally, `ys`. */
  lemma {:induction false} RunConcat(s: OrderState, xs: seq<Unit>, ys: seq<Unit>)
    ensures Run(s, xs + ys) == if Run(s, xs).1.Done? then Run(Run(s, xs).0, ys) else Run(s, xs)
    decreases |xs|
  {
    if xs == [] {
      assert xs + ys == ys;
    } else {
      assert (xs + ys)[0] == xs[0] && (xs + ys)[1..] == xs[1..] + ys;
      RunConcat(Step(s, xs[0]).0, xs[1..], ys);
    }
  }

  /** A replay that ended normally, followed by one more unit, is one more `add_unit`. */
  lemma RunSnoc(s: OrderState, xs: seq<Unit>, u: Unit)
    requires Run(s, xs).1.Done?
    ensures Run(s, xs + [u]) == Step(Run(s, xs).0, u)
  {
    RunConcat(s, xs, [u]);
    RunOne(Run(s, xs).0, u);
  }

  /** A replay of the first `i` units that ended normally, followed by unit `i`, replays the first `i + 1`. */
  lemma RunPrefixStep(s: OrderState, us: seq<Unit>, i: nat)
    requires i < |us| && Run(s, us[..i]).1.Done?
    ensures Run(s, us[..i + 1]) == Step(Run(s, us[..i]).0, us[i])
  {
    RunSnoc(s, us[..i], us[i]);
    TakeSnoc(us, i);
  }

  /** A replay of a prefix that stopped early, or of all the units, is the replay of all of them. */
  lemma RunPrefixStops(s: OrderState, us: seq<Unit>, i: nat)
    requires i <= |us| && (Run(s, us[..i]).1.Done? ==> i == |us|)
    ensures Run(s, us) == Run(s, us[..i])
  {
    if Run(s, us[..i]).1.Done? {
      assert us[..i] == us;
    } else {
      RunConcat(s, us[..i], us[i..]);
      assert us[..i] + us[i..] == us;
    }
  }

  /** Replaying a single unit is one `add_unit`. */
  lemma RunOne(s: OrderState, u: Unit)
    ensures Run(s, [u]) == Step(s, u)
  {
    assert [u][1..] == [];
  }

  // ---------------------------------------------------------------------------
  // Properties of replays
  // ---------------------------------------------------------------------------

  /** A replay of units that consume nothing leaves every logged unit active. */
  lemma {:induction false} RunWithoutConsumes(s: OrderState, us: seq<Unit>)
    requires forall i :: 0 <= i < |us| ==> us[i].consumes == []
    ensures Run(s, us).1.Done? ==> Run(s, us).0.units == s.units + us
    decreases |us|
  {
    if us != [] {
      var s1 := Step(s, us[0]).0;
      if Step(s, us[0]).1.Done? {
        assert s1.units == s.units + [us[0]];
        RunWithoutConsumes(s1, us[1..]);
        assert s.units + [us[0]] + us[1..] == s.units + us;
      }
    }
  }

  /**
   * `based_on` replays the active units of the base order. When no unit of
   * the base consumed anything, the copy is the same order again.
   */
  lemma BasedOnWithoutConsumes(us: seq<Unit>)
    requires forall i :: 0 <= i < |us| ==> us[i].consumes == []
    requires Run(Start(), us).1.Done?
    ensures Run(Start(), Run(Start(), us).0.units) == Run(Start(), us)
  {
    RunWithoutConsumes(Start(), us);
    assert Start().units + us == us;
  }

  /** An admitted unit is logged, its tech unlocked and its consumes removed from the units plus itself. */
  lemma StepAdmitted(s: OrderState, u: Unit)
    requires Admits(s.units, u)
    ensures var (units, failed) := ConsumeAll(s.units + [u], u.consumes);
            Step(s, u) == (OrderState(s.unitOrder + [u], units, AppendNew(s.tech, u.allows)),
                           if failed.Some? then RemoveFailed(failed.value) else Done)
  {
  }

  /** An admitted unit without consumes or tech is logged and made active, and nothing else changes. */
  lemma StepPlain(s: OrderState, u: Unit)
    requires Admits(s.units, u) && u.consumes == [] && u.allows == []
    ensures Step(s, u) == (OrderState(s.unitOrder + [u], s.units + [u], s.tech), Done)
  {
  }

  /**
   * `unit_valid` checks membership, not counts: a unit consuming two copies
   * of a unit of which only one is active passes it, and the second `remove`
   * then fails after the log, the active units and the tech were updated.
   */
  lemma DoubleConsumeIsPartial()
    ensures var drone := Unit("Drone", [], [], []);
            var fuse := Unit("Fuse", [], ["Drone", "Drone"], ["Tech"]);
            var s := OrderState([drone], [drone], []);
            Admits(s.units, fuse) &&
            Step(s, fuse) == (OrderState([drone, fuse], [fuse], ["Tech"]), RemoveFailed("Drone"))
  {
    var drone := Unit("Drone", [], [], []);
    var fuse := Unit("Fuse", [], ["Drone", "Drone"], ["Tech"]);
    assert Names([drone]) == ["Drone"];
    assert Admits([drone], fuse);
    DoubleConsumeRemoves(drone, fuse);
    assert [drone] + [fuse] == [drone, fuse];
    StepAdmitted(OrderState([drone], [drone], []), fuse);
    assert AppendNew([], ["Tech"]) == ["Tech"];
  }

  /** The two removals of `DoubleConsumeIsPartial`: the first finds the Drone, the second finds none. */
  lemma DoubleConsumeRemoves(drone: Unit, fuse: Unit)
    requires drone.name == "Drone" && fuse.name == "Fuse"
    ensures ConsumeAll([drone, fuse], ["Drone", "Drone"]) == ([fuse], Some("Drone"))
  {
    RemoveFirstAt([drone, fuse], "Drone", 0);
    assert [drone, fuse][1..] == [fuse];
    assert Names([fuse]) == ["Fuse"];
    assert RemoveFirst([fuse], "Drone") == None;
    assert ["Drone", "Drone"][1..] == ["Drone"];
  }

  /**
   * `based_on` replays active units, not the log: when a unit consumed a
   * unit that a later unit needs to be consumed again, the copy fails.
   * Here Hatchery, Drone and Extractor (which consumes a Drone) replay
   * normally, but the active units [Hatchery, Extractor] do not: Extractor
   * wants a Drone that is no longer there.
   */
  lemma BasedOnCanFail()
    ensures var hatchery := Unit("Hatchery", [], [], []);
            var drone := Unit("Drone", ["Hatchery"], [], []);
            var extractor := Unit("Extractor", [], ["Drone"], []);
            var base := Run(Start(), [hatchery, drone, extractor]);
            base.1.Done? && base.0.units == [hatchery, extractor] &&
            Run(Start(), base.0.units).1 == NotMet(extractor)
  {
    var hatchery := Unit("Hatchery", [], [], []);
    var drone := Unit("Drone", ["Hatchery"], [], []);
    var extractor := Unit("Extractor", [], ["Drone"], []);
    BaseReplay(hatchery, drone, extractor);
    CopyReplay(hatchery, extractor);
  }

  /** The base order of `BasedOnCanFail` replays normally. */
  lemma BaseReplay(hatchery: Unit, drone: Unit, extractor: Unit)
    requires hatchery == Unit("Hatchery", [], [], [])
    requires drone == Unit("Drone", ["Hatchery"], [], [])
    requires extractor == Unit("Extractor", [], ["Drone"], [])
    ensures Run(Start(), [hatchery, drone, extractor])
         == (OrderState([hatchery, drone, extractor], [hatchery, extractor], []), Done)
  {
    var s1 := OrderState([hatchery], [hatchery], []);
    var s2 := OrderState([hatchery, drone], [hatchery, drone], []);
    var s3 := OrderState([hatchery, drone, extractor], [hatchery, extractor], []);
    StepPlain(Start(), hatchery);
    assert [] + [hatchery] == [hatchery];
    assert Names([hatchery])[0] == "Hatchery";
    StepPlain(s1, drone);
    assert [hatchery] + [drone] == [hatchery, drone];
    ExtractorStep(hatchery, drone, extractor);
    RunConcat(Start(), [hatchery], [drone, extractor]);
    RunConcat(s1, [drone], [extractor]);
    RunOne(Start(), hatchery);
    RunOne(s1, drone);
    RunOne(s2, extractor);
    assert [hatchery] + [drone, extractor] == [hatchery, drone, extractor];
    assert [drone] + [extractor] == [drone, extractor];
  }

  /** Replaying the active units of the base order stops at Extractor. */
  lemma CopyReplay(hatchery: Unit, extractor: Unit)
    requires hatchery == Unit("Hatchery", [], [], [])
    requires extractor == Unit("Extractor", [], ["Drone"], [])
    ensures Run(Start(), [hatchery, extractor]).1 == NotMet(extractor)
  {
    var s1 := OrderState([hatchery], [hatchery], []);
    StepPlain(Start(), hatchery);
    assert [] + [hatchery] == [hatchery];
    assert Names([hatchery]) == ["Hatchery"];
    assert |"Drone"| != |"Hatchery"|;
    assert "Drone" in extractor.consumes && "Drone" !in Names([hatchery]);
    RunConcat(Start(), [hatchery], [extractor]);
    RunOne(Start(), hatchery);
    RunOne(s1, extractor);
    assert [hatchery] + [extractor] == [hatchery, extractor];
  }
  /**
   * The sample order of six drones followed by a hatchery stops at the first
   * drone, whose requirement is not yet active; nothing is logged.
   */
  lemma ZergBaseNotMet(hatchery: Unit, drone: Unit)
    requires hatchery == Unit("Hatchery", [], [], [])
    requires drone == Unit("Drone", ["Hatchery"], [], [])
    ensures Run(Start(), [drone, drone, drone, drone, drone, drone, hatchery]) == (Start(), NotMet(drone))
  {
    assert "Hatchery" !in Names(Start().units);
  }


  /** The Extractor step of `BasedOnCanFail`: the Drone is consumed, Hatchery and Extractor stay. */
  lemma ExtractorStep(hatchery: Unit, drone: Unit, extractor: Unit)
    requires hatchery.name == "Hatchery" && drone.name == "Drone"
    requires extractor == Unit("Extractor", [], ["Drone"], [])
    ensures var s2 := OrderState([hatchery, drone], [hatchery, drone], []);
            Step(s2, extractor) == (OrderState([hatchery, drone, extractor], [hatchery, extractor], []), Done)
  {
    assert Names([hatchery, drone])[1] == "Drone";
    assert Admits([hatchery, drone], extractor);
    ExtractorRemoves(hatchery, drone, extractor);
    assert [hatchery, drone] + [extractor] == [hatchery, drone, extractor];
    StepAdmitted(OrderState([hatchery, drone], [hatchery, drone], []), extractor);
  }

  /** The removal of `ExtractorStep`: the Drone between Hatchery and Extractor goes. */
  lemma ExtractorRemoves(hatchery: Unit, drone: Unit, extractor: Unit)
    requires hatchery.name == "Hatchery" && drone.name == "Drone"
    ensures ConsumeAll([hatchery, drone, extractor], ["Drone"]) == ([hatchery, extractor], None)
  {
    var us := [hatchery, drone, extractor];
    assert us[0].name != "Drone";
    RemoveFirstAt(us, "Drone", 1);
    assert us[..1] + us[2..] == [hatchery, extractor];
    assert ["Drone"][1..] == [];
  }

  // ---------------------------------------------------------------------------
  // The BuildOrder object
  // ---------------------------------------------------------------------------

  class BuildOrder {
    var unitOrder: seq<Unit>
    var units: seq<Unit>
    var tech: seq<string>

    /** The three lists, as a value. */
    function State(): OrderState
      reads this
    {
      OrderState(unitOrder, units, tech)
    }

    ghost predicate Valid()
      reads this
    {
      Inv(State())
    }

    /** The three empty lists of `__init__`, before any unit is added. */
    constructor Empty()
      ensures State() == Start() && Valid()
    {
      unitOrder, units, tech := [], [], [];
    }

    /**
     * `BuildOrder(*units)`: adds the units in order. A constructor cannot
     * report the exception, so this returns the object with the outcome of
     * the replay; in the source an outcome other than `Done` is raised and
     * the object is not returned.
     */
    static method Create(us: seq<Unit>) returns (o: BuildOrder, outcome: Outcome)
      ensures fresh(o) && o.Valid()
      ensures (o.State(), outcome) == Run(Start(), us)
    {
      o := new BuildOrder.Empty();
      outcome := Done;
      var i := 0;
      while i < |us| && outcome.Done?
        invariant 0 <= i <= |us|
        invariant (o.State(), outcome) == Run(Start(), us[..i])
        invariant o.Valid()
      {
        RunPrefixStep(Start(), us, i);
        outcome := o.AddUnit(us[i]);
        i := i + 1;
      }
      RunPrefixStops(Start(), us, i);
    }

    /** `based_on`: a new order replaying the active units of `base`. */
    static method BasedOn(base: BuildOrder) returns (o: BuildOrder, outcome: Outcome)
      ensures fresh(o) && o.Valid()
      ensures (o.State(), outcome) == Run(Start(), base.units)
    {
      o, outcome := Create(base.units);
    }

    /** `active_units`: every active unit was logged, as many times at least as it is active. */
    function ActiveUnits(): (r: seq<Unit>)
      reads this
      requires Valid()
      ensures multiset(r) <= multiset(unitOrder)
    {
      units
    }

    /** `available_tech`: no repeats, and everything that a logged unit allows. */
    function AvailableTech(): (r: seq<string>)
      reads this
      requires Valid()
      ensures NoDup(r)
      ensures forall i, t :: 0 <= i < |unitOrder| && t in unitOrder[i].allows ==> t in r
    {
      tech
    }

    /** `unit_valid`, by the source's two loops. */
    method UnitValid(u: Unit) returns (ok: bool)
      ensures ok == Admits(units, u)
    {
      var names := Names(units);
      for i := 0 to |u.consumes|
        invariant forall k :: 0 <= k < i ==> u.consumes[k] in names
      {
        if u.consumes[i] !in names {
          return false;
        }
      }
      for i := 0 to |u.requirements|
        invariant forall k :: 0 <= k < i ==> u.requirements[k] in names
      {
        if u.requirements[i] !in names {
          return false;
        }
      }
      return true;
    }

    /** `self._units.remove(name)`: drops the first active unit with that name, if there is one. */
    method Remove(name: string) returns (found: bool)
      modifies this
      ensures unitOrder == old(unitOrder) && tech == old(tech)
      ensures RemoveFirst(old(units), name) == if found then Some(units) else None
      ensures !found ==> units == old(units)
    {
      var i := 0;
      while i < |units| && units[i].name != name
        invariant 0 <= i <= |units|
        invariant forall j :: 0 <= j < i ==> units[j].name != name
      {
        i := i + 1;
      }
      if i == |units| {
        assert name !in Names(units);
        return false;
      }
      RemoveFirstAt(units, name, i);
      units := units[..i] + units[i + 1..];
      return true;
    }

    /** The tech loop of `add_unit`: appends each allowed tech that is not yet listed. */
    method UnlockTech(allows: seq<string>)
      modifies this
      ensures unitOrder == old(unitOrder) && units == old(units)
      ensures tech == AppendNew(old(tech), allows)
    {
      for i := 0 to |allows|
        invariant unitOrder == old(unitOrder) && units == old(units)
        invariant tech == AppendNew(old(tech), allows[..i])
      {
        AppendNewConcat(old(tech), allows[..i], [allows[i]]);
        TakeSnoc(allows, i);
        if allows[i] !in tech {
          tech := tech + [allows[i]];
        }
      }
      assert allows[..|allows|] == allows;
    }

    /** The consume loop of `add_unit`: removes each consumed unit in turn, stopping at the first one missing. */
    method ConsumeUnits(cs: seq<string>) returns (failed: Option<string>)
      modifies this
      ensures unitOrder == old(unitOrder) && tech == old(tech)
      ensures (units, failed) == ConsumeAll(old(units), cs)
    {
      for i := 0 to |cs|
        invariant unitOrder == old(unitOrder) && tech == old(tech)
        invariant ConsumeAll(old(units), cs[..i]) == (units, None)
      {
        ConsumeAllSnoc(old(units), cs[..i], cs[i]);
        TakeSnoc(cs, i);
        var found := Remove(cs[i]);
        if !found {
          ConsumeAllRest(old(units), cs, i + 1);
          return Some(cs[i]);
        }
      }
      assert cs[..|cs|] == cs;
      return None;
    }

    /**
     * `add_unit`: the outcome and the new lists are those of `Step`; `Done`
     * is the normal return, the other outcomes are the exceptions.
     */
    method AddUnit(u: Unit) returns (outcome: Outcome)
      requires Valid()
      modifies this
      ensures Valid()
      ensures (State(), outcome) == Step(old(State()), u)
    {
      StepInv(State(), u);
      var ok := UnitValid(u);
      if !ok {
        return NotMet(u);
      }
      StepAdmitted(State(), u);
      unitOrder := unitOrder + [u];
      units := units + [u];
      UnlockTech(u.allows);
      var failed := ConsumeUnits(u.consumes);
      outcome := if failed.Some? then RemoveFailed(failed.value) else Done;
    }
  }

  /** Once a removal has failed, the later names are not looked at. */
  lemma {:induction false} ConsumeAllRest(us: seq<Unit>, cs: seq<string>, i: nat)
    requires i <= |cs| && ConsumeAll(us, cs[..i]).1.Some?
    ensures ConsumeAll(us, cs) == ConsumeAll(us, cs[..i])
    decreases i
  {
    assert cs[..i] != [];
    assert cs[..i][0] == cs[0] && cs[..i][1..] == cs[1..][..i - 1];
    match RemoveFirst(us, cs[0])
    case None =>
    case Some(rest) =>
      ConsumeAllRest(rest, cs[1..], i - 1);
  }
}
