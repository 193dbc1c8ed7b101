/**
 * The unit definitions of sc_units.py (lines 106-172): eleven Zerg
 * structures, ten Zerg units, fourteen Protoss structures and fifteen Protoss
 * units, each with the names of `UnitNames` and its direct requirements.
 * Handles are positions in definition order.
 */
module UnitCatalog {
  import opened Units
  import opened Wrappers
  import opened Seqs

  const Hatchery: UnitId := 0
  const SpawningPool: UnitId := 1
  const BanelingNest: UnitId := 2
  const RoachWarren: UnitId := 3
  const Lair: UnitId := 4
  const InfestationPit: UnitId := 5
  const Spire: UnitId := 6
  const HydraliskDen: UnitId := 7
  const Hive: UnitId := 8
  const UltraliskDen: UnitId := 9
  const GreaterSpire: UnitId := 10
  const Drone: UnitId := 11
  const Zergling: UnitId := 12
  const Ultralisk: UnitId := 13
  const Hydralisk: UnitId := 14
  const Corrupter: UnitId := 15
  const Mutalisk: UnitId := 16
  const Infestor: UnitId := 17
  const Roach: UnitId := 18
  const Baneling: UnitId := 19
  const BroodLord: UnitId := 20
  const Nexus: UnitId := 21
  const Pylon: UnitId := 22
  const Assimilator: UnitId := 23
  const Gateway: UnitId := 24
  const CyberneticsCore: UnitId := 25
  const Forge: UnitId := 26
  const WarpGate: UnitId := 27
  const TwilightCouncil: UnitId := 28
  const TemplarArchives: UnitId := 29
  const DarkShrine: UnitId := 30
  const Stargate: UnitId := 31
  const FleetBeacon: UnitId := 32
  const RoboticsFacility: UnitId := 33
  const RoboticsBay: UnitId := 34
  const Probe: UnitId := 35
  const Zealot: UnitId := 36
  const Sentry: UnitId := 37
  const Stalker: UnitId := 38
  const Cannon: UnitId := 39
  const DarkTemplar: UnitId := 40
  const HighTemplar: UnitId := 41
  const Phoenix: UnitId := 42
  const VoidRay: UnitId := 43
  const Carrier: UnitId := 44
  const Mothership: UnitId := 45
  const Immortal: UnitId := 46
  const Colossus: UnitId := 47
  const Observer: UnitId := 48
  const WarpPrism: UnitId := 49

  /** Name and direct requirements of unit `u`. */
  function Entry(u: UnitId): (e: (string, seq<UnitId>))
    requires u < UnitCount
    ensures forall k :: 0 <= k < |e.1| ==> e.1[k] < u
  {
    match u
    case 0 => ("Hatchery", [])
    case 1 => ("Spawning Pool", [])
    case 2 => ("Baneling Nest", [SpawningPool])
    case 3 => ("Roach Warren", [SpawningPool])
    case 4 => ("Lair", [SpawningPool])
    case 5 => ("Infestation Pit", [Lair])
    case 6 => ("Spire", [Lair])
    case 7 => ("Hydralisk Den", [Lair])
    case 8 => ("Hive", [InfestationPit])
    case 9 => ("Ultralisk Den", [Hive])
    case 10 => ("Greater Spire", [Hive, Spire])
    case 11 => ("Drone", [Hatchery])
    case 12 => ("Zergling", [SpawningPool])
    case 13 => ("Ultralisk", [UltraliskDen])
    case 14 => ("Hydralisk", [HydraliskDen])
    case 15 => ("Corrupter", [Spire])
    case 16 => ("Mutalisk", [Spire])
    case 17 => ("Infestor", [InfestationPit])
    case 18 => ("Roach", [RoachWarren])
    case 19 => ("Baneling", [BanelingNest])
    case 20 => ("Brood Lord", [Corrupter, GreaterSpire])
    case 21 => ("Nexus", [])
    case 22 => ("Pylon", [])
    case 23 => ("Assimilator", [])
    case 24 => ("Gateway", [Pylon])
    case 25 => ("Cybernetics Core", [Gateway])
    case 26 => ("Forge", [Pylon])
    case 27 => ("Warp Gate", [CyberneticsCore])
    case 28 => ("Twilight Council", [CyberneticsCore])
    case 29 => ("Templar Archives", [TwilightCouncil])
    case 30 => ("Dark Shrine", [TwilightCouncil])
    case 31 => ("Stargate", [CyberneticsCore])
    case 32 => ("Fleet Beacon", [Stargate])
    case 33 => ("Robotics Facility", [CyberneticsCore])
    case 34 => ("Robotics Bay", [RoboticsFacility])
    case 35 => ("Probe", [Nexus])
    case 36 => ("Zealot", [Gateway])
    case 37 => ("Sentry", [CyberneticsCore])
    case 38 => ("Stalker", [CyberneticsCore])
    case 39 => ("Cannon", [Forge])
    case 40 => ("Dark Templar", [DarkShrine])
    case 41 => ("High Templar", [TemplarArchives])
    case 42 => ("Phoenix", [Stargate])
    case 43 => ("Void Ray", [Stargate])
    case 44 => ("Carrier", [FleetBeacon])
    case 45 => ("Mothership", [FleetBeacon])
    case 46 => ("Immortal", [RoboticsFacility])
    case 47 => ("Colossus", [RoboticsBay])
    case 48 => ("Observer", [RoboticsFacility])
    case _ => ("Warp Prism", [RoboticsFacility])
  }

  /** The handle of the unit with the given name, if there is one. */
  function Lookup(name: string): Option<UnitId>
  {
    match name
    case "Hatchery" => Some(0)
    case "Spawning Pool" => Some(1)
    case "Baneling Nest" => Some(2)
    case "Roach Warren" => Some(3)
    case "Lair" => Some(4)
    case "Infestation Pit" => Some(5)
    case "Spire" => Some(6)
    case "Hydralisk Den" => Some(7)
    case "Hive" => Some(8)
    case "Ultralisk Den" => Some(9)
    case "Greater Spire" => Some(10)
    case "Drone" => Some(11)
    case "Zergling" => Some(12)
    case "Ultralisk" => Some(13)
    case "Hydralisk" => Some(14)
    case "Corrupter" => Some(15)
    case "Mutalisk" => Some(16)
    case "Infestor" => Some(17)
    case "Roach" => Some(18)
    case "Baneling" => Some(19)
    case "Brood Lord" => Some(20)
    case "Nexus" => Some(21)
    case "Pylon" => Some(22)
    case "Assimilator" => Some(23)
    case "Gateway" => Some(24)
    case "Cybernetics Core" => Some(25)
    case "Forge" => Some(26)
    case "Warp Gate" => Some(27)
    case "Twilight Council" => Some(28)
    case "Templar Archives" => Some(29)
    case "Dark Shrine" => Some(30)
    case "Stargate" => Some(31)
    case "Fleet Beacon" => Some(32)
    case "Robotics Facility" => Some(33)
    case "Robotics Bay" => Some(34)
    case "Probe" => Some(35)
    case "Zealot" => Some(36)
    case "Sentry" => Some(37)
    case "Stalker" => Some(38)
    case "Cannon" => Some(39)
    case "Dark Templar" => Some(40)
    case "High Templar" => Some(41)
    case "Phoenix" => Some(42)
    case "Void Ray" => Some(43)
    case "Carrier" => Some(44)
    case "Mothership" => Some(45)
    case "Immortal" => Some(46)
    case "Colossus" => Some(47)
    case "Observer" => Some(48)
    case "Warp Prism" => Some(49)
    case _ => None
  }

  const UnitCount := 50

  /** Looking up the name of a Zerg structure gives it back. */
  lemma LookupZergStructures(u: UnitId)
    requires u <= GreaterSpire
    ensures Lookup(Entry(u).0) == Some(u)
  {
  }

  /** Looking up the name of a Zerg unit gives it back. */
  lemma LookupZergUnits(u: UnitId)
    requires GreaterSpire < u <= BroodLord
    ensures Lookup(Entry(u).0) == Some(u)
  {
  }

  /** Looking up the name of Nexus, Pylon, Assimilator, Gateway, Cybernetics Core, Forge or Warp Gate gives it back. */
  lemma LookupProtossBase(u: UnitId)
    requires BroodLord < u <= WarpGate
    ensures Lookup(Entry(u).0) == Some(u)
  {
  }

  /** Looking up the name of a Protoss tech structure from Twilight Council to Robotics Bay gives it back. */
  lemma LookupProtossTech(u: UnitId)
    requires WarpGate < u <= RoboticsBay
    ensures Lookup(Entry(u).0) == Some(u)
  {
  }

  /** Looking up the name of Probe, Zealot, Sentry, Stalker, Cannon, Dark Templar or High Templar gives it back. */
  lemma LookupProtossGround(u: UnitId)
    requires RoboticsBay < u <= HighTemplar
    ensures Lookup(Entry(u).0) == Some(u)
  {
  }

  /** Looking up the name of Phoenix, Void Ray, Carrier or Mothership gives it back. */
  lemma LookupProtossAir(u: UnitId)
    requires HighTemplar < u <= Mothership
    ensures Lookup(Entry(u).0) == Some(u)
  {
  }

  /** Looking up the name of Immortal, Colossus, Observer or Warp Prism gives it back. */
  lemma LookupProtossRobotics(u: UnitId)
    requires Mothership < u < UnitCount
    ensures Lookup(Entry(u).0) == Some(u)
  {
  }

  /** `Lookup` inverts the naming of the catalog. */
  lemma LookupEntry(u: UnitId)
    requires u < UnitCount
    ensures Lookup(Entry(u).0) == Some(u)
  {
    if u <= GreaterSpire {
      LookupZergStructures(u);
    } else if u <= BroodLord {
      LookupZergUnits(u);
    } else if u <= WarpGate {
      LookupProtossBase(u);
    } else if u <= RoboticsBay {
      LookupProtossTech(u);
    } else if u <= HighTemplar {
      LookupProtossGround(u);
    } else if u <= Mothership {
      LookupProtossAir(u);
    } else {
      LookupProtossRobotics(u);
    }
  }

  /** The direct requirements of every unit, in definition order. */
  function Requirements(): (reqs: seq<seq<UnitId>>)
    ensures |reqs| == UnitCount
    ensures forall u :: 0 <= u < UnitCount ==> reqs[u] == Entry(u).1
  {
    seq(UnitCount, i requires 0 <= i < UnitCount => Entry(i).1)
  }

  /** Every unit is defined after all of its requirements, so the prerequisite graph is acyclic. */
  lemma CatalogAcyclic()
    ensures RequiresEarlier(Requirements())
  {
    var reqs := Requirements();
    forall u, k | 0 <= u < |reqs| && 0 <= k < |reqs[u]| ensures reqs[u][k] < u {
      assert reqs[u] == Entry(u).1;
    }
  }

  /** The unit names are pairwise distinct. */
  lemma NamesDistinct()
    ensures forall i, j :: 0 <= i < j < UnitCount ==> Entry(i).0 != Entry(j).0
  {
    forall i, j | 0 <= i < j < UnitCount ensures Entry(i).0 != Entry(j).0 {
      LookupEntry(i);
      LookupEntry(j);
    }
  }

  /** Hatchery, Nexus and Pylon have no requirements, so nothing in their closure. */
  lemma RootUnits()
    ensures RequiresEarlier(Requirements())
    ensures FullRequirements(Requirements(), Hatchery) == []
    ensures FullRequirements(Requirements(), Nexus) == []
    ensures FullRequirements(Requirements(), Pylon) == []
  {
    CatalogAcyclic();
  }

  /** The closures along the Lair tech path, each requirement's closure followed by the requirement. */
  lemma LairPathRequirements(reqs: seq<seq<UnitId>>)
    requires reqs == Requirements()
    ensures RequiresEarlier(reqs)
    ensures FullRequirements(reqs, Spire) == [SpawningPool, Lair]
    ensures FullRequirements(reqs, Corrupter) == [SpawningPool, Lair, Spire]
    ensures FullRequirements(reqs, Hive) == [SpawningPool, Lair, InfestationPit]
  {
    CatalogAcyclic();
    SingleRequirement(reqs, Lair);
    SingleRequirement(reqs, Spire);
    SingleRequirement(reqs, Corrupter);
    SingleRequirement(reqs, InfestationPit);
    SingleRequirement(reqs, Hive);
  }

  /** Greater Spire lists Hive's closure and Hive, then Spire, whose own closure is already listed. */
  lemma GreaterSpireRequirements(reqs: seq<seq<UnitId>>)
    requires reqs == Requirements()
    ensures RequiresEarlier(reqs)
    ensures FullRequirements(reqs, GreaterSpire) == [SpawningPool, Lair, InfestationPit, Hive, Spire]
  {
    LairPathRequirements(reqs);
    DirectRequirements(reqs, GreaterSpire);
    GreaterSpireDefinition();
    TwoRequirements(reqs, GreaterSpire);
    GreaterSpireMerge(FullRequirements(reqs, Hive) + [Hive], FullRequirements(reqs, Spire));
  }

  /** Spire's closure is already listed after Hive's, so only Spire itself is appended. */
  lemma GreaterSpireMerge(hive: seq<UnitId>, spire: seq<UnitId>)
    requires hive == [SpawningPool, Lair, InfestationPit, Hive] && spire == [SpawningPool, Lair]
    ensures AppendNew(AppendNew(hive, spire), [Spire]) == [SpawningPool, Lair, InfestationPit, Hive, Spire]
  {
    AppendNewPresent(hive, spire);
    AppendNewFresh(hive, [Spire]);
  }

  /** Merging Greater Spire's closure into Corrupter's adds only Infestation Pit and Hive, then Greater Spire. */
  lemma BroodLordMerge(corrupter: seq<UnitId>, greater: seq<UnitId>)
    requires corrupter == [SpawningPool, Lair, Spire, Corrupter]
    requires greater == [SpawningPool, Lair, InfestationPit, Hive, Spire]
    ensures AppendNew(AppendNew(corrupter, greater), [GreaterSpire])
         == [SpawningPool, Lair, Spire, Corrupter, InfestationPit, Hive, GreaterSpire]
  {
    assert greater == [SpawningPool, Lair] + [InfestationPit, Hive] + [Spire];
    AppendNewMiddle(corrupter, [SpawningPool, Lair], [InfestationPit, Hive], [Spire]);
    AppendNewFresh(corrupter + [InfestationPit, Hive], [GreaterSpire]);
  }

  /** The Brood Lord closure, in the order `full_requirements` lists it. */
  lemma BroodLordRequirements(reqs: seq<seq<UnitId>>)
    requires reqs == Requirements()
    ensures RequiresEarlier(reqs)
    ensures FullRequirements(reqs, BroodLord)
         == [SpawningPool, Lair, Spire, Corrupter, InfestationPit, Hive, GreaterSpire]
  {
    LairPathRequirements(reqs);
    GreaterSpireRequirements(reqs);
    DirectRequirements(reqs, BroodLord);
    BroodLordDefinition();
    BroodLordClosure(reqs);
  }

  /** Greater Spire is defined with Hive and Spire as its requirements. */
  lemma GreaterSpireDefinition()
    ensures Entry(GreaterSpire).1 == [Hive, Spire]
  {
  }

  /** Brood Lord is defined with Corrupter and Greater Spire as its requirements. */
  lemma BroodLordDefinition()
    ensures Entry(BroodLord).1 == [Corrupter, GreaterSpire]
  {
  }

  /** The direct requirements stored for a unit are those of its definition. */
  lemma DirectRequirements(reqs: seq<seq<UnitId>>, u: UnitId)
    requires reqs == Requirements() && u < UnitCount
    ensures reqs[u] == Entry(u).1
  {
  }

  /** Brood Lord's closure from its two direct requirements and their closures. */
  lemma BroodLordClosure(reqs: seq<seq<UnitId>>)
    requires RequiresEarlier(reqs) && BroodLord < |reqs| && reqs[BroodLord] == [Corrupter, GreaterSpire]
    requires FullRequirements(reqs, Corrupter) == [SpawningPool, Lair, Spire]
    requires FullRequirements(reqs, GreaterSpire) == [SpawningPool, Lair, InfestationPit, Hive, Spire]
    ensures FullRequirements(reqs, BroodLord)
         == [SpawningPool, Lair, Spire, Corrupter, InfestationPit, Hive, GreaterSpire]
  {
    TwoRequirements(reqs, BroodLord);
    BroodLordMerge(FullRequirements(reqs, Corrupter) + [Corrupter], FullRequirements(reqs, GreaterSpire));
  }

  /** Constructs every unit of the catalog, as the module-level definitions do. */
  method LoadAll() returns (c: Catalog)
    ensures fresh(c) && c.Valid()
    ensures c.reqs == Requirements()
    ensures forall i :: 0 <= i < UnitCount ==> c.names[i] == Entry(i).0
  {
    CatalogAcyclic();
    c := Catalog.Load(seq(UnitCount, i requires 0 <= i < UnitCount => Entry(i)));
  }
}
