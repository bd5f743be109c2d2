/** What an accepted FX configuration gives the engines, and what it does not. */
module ConfiguredConnections {
  import opened Bytes
  import opened Wrappers
  import opened WireFormat
  import opened PubSubModel
  import opened FxModel
  import opened ConnectionSteps
  import opened Correspondence
  import opened ConnectionSafety
  import opened ConnectionTheorems
  import C = FxConfiguration

  function OfferedOutput(o: C.Output): Dataset {
    Dataset(o.name, o.writerGroupId, o.dataSetWriterId, |o.fields|)
  }

  function OfferedInput(i: C.Input): Dataset {
    Dataset(i.name, 0, 0, |i.fields|)
  }

  function OfferedEntity(e: C.Entity): FxModel.Entity {
    FxModel.Entity(e.name,
      seq(|e.outputs|, i requires 0 <= i < |e.outputs| => OfferedOutput(e.outputs[i])),
      seq(|e.inputs|, i requires 0 <= i < |e.inputs| => OfferedInput(e.inputs[i])))
  }

  /** What the engine makes of a staged configuration. */
  function Offered(c: C.Staged): Configuration {
    Configuration(c.component, c.publisherIdType, c.publisherId,
      seq(|c.entities|, i requires 0 <= i < |c.entities| => OfferedEntity(c.entities[i])))
  }

  lemma {:induction false} FindDatasetFinds(datasets: seq<Dataset>, a: nat)
    requires a < |datasets| && forall k, l :: 0 <= k < l < |datasets| ==> datasets[k].name != datasets[l].name
    ensures FindDataset(datasets, datasets[a].name) == Some(datasets[a])
  {
    if a > 0 {
      FindDatasetFinds(datasets[1..], a - 1);
    }
  }

  lemma EntityNamesDiffer(c: C.Staged)
    requires C.Valid(c)
    ensures forall k, l :: 0 <= k < l < |Offered(c).entities| ==> Offered(c).entities[k].name != Offered(c).entities[l].name
  {
    hide C.ValidEntity, C.NoRepeats, C.GroupIds;
    forall k, l | 0 <= k < l < |c.entities|
      ensures c.entities[k].name != c.entities[l].name
    {
      assert C.EntityNames(c.entities)[k] != C.EntityNames(c.entities)[l];
    }
  }

  /** Every output dataset can be published, under the key of its own writer group. */
  lemma OutputPublishes(c: C.Staged, i: nat, a: nat)
    requires C.Valid(c) && i < |c.entities| && a < |c.entities[i].outputs|
    ensures Offers(Offered(c).entities[i], Publishing(c.entities[i].outputs[a].name))
    ensures GroupKeyOf(Offered(c), Offered(c).entities[i], Publishing(c.entities[i].outputs[a].name))
      == GroupKey(c.entities[i].outputs[a].writerGroupId, c.publisherIdType, c.publisherId)
  {
    hide C.NoRepeats, C.GroupIds;
    var e := Offered(c).entities[i];
    assert C.ValidEntity(c.entities[i]);
    forall k, l | 0 <= k < l < |e.outputs|
      ensures e.outputs[k].name != e.outputs[l].name
    {
      assert C.OutputNames(c.entities[i].outputs)[k] != C.OutputNames(c.entities[i].outputs)[l];
    }
    FindDatasetFinds(e.outputs, a);
  }

  /** Every input dataset can be subscribed to, whoever the peer is. */
  lemma InputSubscribes(c: C.Staged, i: nat, a: nat, peer: ReaderKey)
    requires C.Valid(c) && i < |c.entities| && a < |c.entities[i].inputs|
    ensures Offers(Offered(c).entities[i], Subscribing(c.entities[i].inputs[a].name, peer))
  {
    hide C.NoRepeats, C.GroupIds;
    var e := Offered(c).entities[i];
    assert C.ValidEntity(c.entities[i]);
    forall k, l | 0 <= k < l < |e.inputs|
      ensures e.inputs[k].name != e.inputs[l].name
    {
      assert C.InputNames(c.entities[i].inputs)[k] != C.InputNames(c.entities[i].inputs)[l];
    }
    FindDatasetFinds(e.inputs, a);
  }

  lemma {:induction false} IdAmong(entities: seq<C.Entity>, i: nat, a: nat)
    requires i < |entities| && a < |entities[i].outputs|
    ensures entities[i].outputs[a].writerGroupId in C.GroupIds(entities)
  {
    var last := |entities| - 1;
    var ids := C.OutputIds(entities[last].outputs);
    if i == last {
      assert ids[a] in ids;
    } else {
      IdAmong(entities[..last], i, a);
    }
  }

  /** Different output datasets have different writer groups. */
  lemma OutputGroupsDiffer(c: C.Staged, i: nat, a: nat, j: nat, b: nat)
    requires C.Valid(c) && i < |c.entities| && j < |c.entities|
    requires a < |c.entities[i].outputs| && b < |c.entities[j].outputs| && (i < j || (i == j && a < b))
    ensures c.entities[i].outputs[a].writerGroupId != c.entities[j].outputs[b].writerGroupId
  {
    hide C.GroupIds, C.ValidEntity, C.UniqueNames, C.NoRepeats;
    var front, ids := c.entities[..j], C.OutputIds(c.entities[j].outputs);
    C.GroupIdsOne(c.entities, j);
    C.GroupIdsFront(c.entities, j + 1);
    NoRepeatsInFront(C.GroupIds(front) + ids, C.GroupIds(c.entities));
    NoRepeatsInFront(C.GroupIds(front), C.GroupIds(front) + ids);
    C.IdsTogether(C.GroupIds(front), ids, C.GroupIds(c.entities));
    assert ids[b] in ids;
    if i < j {
      IdAmong(front, i, a);
    } else {
      IdsDiffer(ids, a, b);
    }
  }

  lemma NoRepeatsInFront(ids: seq<uint16>, all: seq<uint16>)
    requires ids <= all && C.NoRepeats(all)
    ensures C.NoRepeats(ids)
  {
  }

  lemma IdsDiffer(ids: seq<uint16>, a: nat, b: nat)
    requires C.NoRepeats(ids) && a < b < |ids|
    ensures ids[a] != ids[b]
  {
  }

  // ---------------------------------------------------------------- exactly when the engines correspond

  /** Whenever no call is in progress, the containers hold for every endpoint exactly what it should have. */
  ghost predicate AlwaysRepresented(c: Configuration) {
    forall w, n :: Reachable(c, w) && w.caller.Idle? && n in w.fx.endpoints ==> Represented(w.ps, w.fx.endpoints[n])
  }

  /** Both engines just started, with nothing configured in the Pub/Sub engine. */
  function Start(): World {
    World(FxModel.State(true, map[], {}), PubSubModel.State(true, [], map[], map[]), Idle, Resting)
  }

  lemma StartIsInitial()
    ensures Initially(Start())
  {
    assert Usage(map[]) == map[];
  }

  /** How an entity of an accepted configuration can be connected: it has an output or an input dataset. */
  function SideOf(e: C.Entity, peer: ReaderKey): Side
    requires e.outputs != [] || e.inputs != []
  {
    if e.outputs != [] then Publishing(e.outputs[0].name) else Subscribing(e.inputs[0].name, peer)
  }

  lemma HasASide(c: C.Staged, i: nat, peer: ReaderKey)
    requires C.Valid(c) && i < |c.entities|
    ensures c.entities[i].outputs != [] || c.entities[i].inputs != []
    ensures Offers(Offered(c).entities[i], SideOf(c.entities[i], peer))
    ensures Free(Offered(c), Start().ps, Offered(c).entities[i], SideOf(c.entities[i], peer))
  {
    hide C.NoRepeats, C.GroupIds, C.UniqueNames, Offers;
    assert C.ValidEntity(c.entities[i]);
    if c.entities[i].outputs != [] {
      OutputPublishes(c, i, 0);
    } else {
      InputSubscribes(c, i, 0, peer);
    }
  }

  lemma SidesApart(c: C.Staged, i: nat, j: nat, p: ReaderKey, q: ReaderKey)
    requires C.Valid(c) && i < |c.entities| && j < |c.entities| && i != j && p != q
    requires c.entities[i].outputs != [] || c.entities[i].inputs != []
    requires c.entities[j].outputs != [] || c.entities[j].inputs != []
    requires Offers(Offered(c).entities[i], SideOf(c.entities[i], p)) && Offers(Offered(c).entities[j], SideOf(c.entities[j], q))
    ensures Apart(Offered(c), Offered(c).entities[i], SideOf(c.entities[i], p), Offered(c).entities[j], SideOf(c.entities[j], q))
  {
    hide C.Valid, Offers, GroupKeyOf;
    if c.entities[i].outputs != [] && c.entities[j].outputs != [] {
      OutputPublishes(c, i, 0);
      OutputPublishes(c, j, 0);
      if i < j {
        OutputGroupsDiffer(c, i, 0, j, 0);
      } else {
        OutputGroupsDiffer(c, j, 0, i, 0);
      }
    }
  }

  /**
   Validation does not make a configuration tag-safe. With accepted entity names one of which extends the
   other past a slash, whether they publish or subscribe, three successful calls after start-up leave a
   connection active with neither a writer group nor a reader.
   */
  lemma ValidNamesMayCollide(c: C.Staged, i: nat, j: nat) returns (w: World, name: Text)
    requires C.Valid(c) && i < |c.entities| && j < |c.entities| && Collidable(c.entities[i].name, c.entities[j].name)
    ensures Reachable(Offered(c), w) && w.caller.Idle? && Lost(w, name)
  {
    hide C.Valid, Run, Initially, Collidable, Offers, Free, Apart, Lost;
    LongerIsOther(c.entities[i].name, c.entities[j].name);
    EntityNamesDiffer(c);
    StartIsInitial();
    var p, q := PubSubModel.ReaderKey(0, 0, 0), PubSubModel.ReaderKey(0, 0, 1);
    HasASide(c, i, p);
    HasASide(c, j, q);
    SidesApart(c, i, j, p, q);
    var actions;
    actions, name := CollisionLosesAConnection(Offered(c), Start(), i, j, SideOf(c.entities[i], p), SideOf(c.entities[j], q));
    w := Run(Offered(c), Start(), actions).value;
  }

  /**
   Two-engine correspondence, exactly. For an accepted configuration, the containers agree with the
   endpoints in every reachable world without a call in progress if and only if no entity name extends
   another past a slash so that valid connection names make up the difference.
   */
  lemma CorrespondenceExactly(c: C.Staged)
    requires C.Valid(c)
    ensures AlwaysRepresented(Offered(c)) <==> TagSafe(Offered(c))
  {
    hide C.Valid, Reachable, Represented, Collidable, Lost;
    if TagSafe(Offered(c)) {
      SafeIsAlwaysRepresented(Offered(c));
    } else {
      var i, j :| 0 <= i < |c.entities| && 0 <= j < |c.entities| && Collidable(c.entities[i].name, c.entities[j].name);
      var w, name := ValidNamesMayCollide(c, i, j);
      LostIsNotRepresented(w, name);
      LostIsThere(w, name);
    }
  }

  lemma SafeIsAlwaysRepresented(c: Configuration)
    requires TagSafe(c)
    ensures AlwaysRepresented(c)
  {
    hide TagSafe, Reachable, Represented;
    forall w, n | Reachable(c, w) && w.caller.Idle? && n in w.fx.endpoints
      ensures Represented(w.ps, w.fx.endpoints[n])
    {
      EndpointsMatchContainers(c, w);
    }
  }

  lemma LostIsThere(w: World, name: Text)
    requires Lost(w, name)
    ensures name in w.fx.endpoints
  {
  }

  /** Entity names without a slash are enough. */
  lemma NamesWithoutSlashAreEnough(c: C.Staged)
    requires C.Valid(c) && forall i :: 0 <= i < |c.entities| ==> SLASH !in c.entities[i].name
    ensures AlwaysRepresented(Offered(c))
  {
    hide C.Valid, AlwaysRepresented;
    NoSlashIsTagSafe(Offered(c));
    CorrespondenceExactly(c);
  }
}
