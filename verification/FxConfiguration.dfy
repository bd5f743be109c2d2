/**
 The staged FX configuration: how empty field names are defaulted, and exactly which configurations
 are accepted. What is accepted gives the FX engine names and writer groups that are unique.
 */
module FxConfiguration {
  import opened Bytes
  import opened Wrappers
  import opened WireFormat
  import PubSubModel
  import FxModel

  type Text = PubSubModel.Text

  const DOT: byte := 0x2E
  const MAX_EXACT_PUBLISHER_ID := 0x20_0000_0000_0000

  datatype Field = Field(name: Text, address: Text)

  /** An output dataset; whether its interval is positive and at most a day is decided on doubles. */
  datatype Output = Output(name: Text, writerGroupId: uint16, dataSetWriterId: uint16, intervalOk: bool, fields: seq<Field>)

  datatype Input = Input(name: Text, fields: seq<Field>)

  datatype Entity = Entity(name: Text, outputs: seq<Output>, inputs: seq<Input>)

  datatype Staged = Staged(
    component: Text, publisherIdType: PublisherIdType, publisherId: uint64, entities: seq<Entity>)

  /** What follows the last dot of an address. */
  function LeafOf(address: Text): (leaf: Text)
    ensures DOT !in leaf && |leaf| <= |address| && address[|address| - |leaf|..] == leaf
    ensures |leaf| < |address| ==> address[|address| - |leaf| - 1] == DOT
  {
    if address == [] || address[|address| - 1] == DOT then []
    else
      var rest := LeafOf(address[..|address| - 1]);
      assert address[|address| - |rest| - 1..] == rest + [address[|address| - 1]];
      rest + [address[|address| - 1]]
  }

  function DefaultedField(f: Field): Field {
    if f.name == [] then f.(name := LeafOf(f.address)) else f
  }

  function DefaultedFields(fields: seq<Field>): seq<Field> {
    seq(|fields|, i requires 0 <= i < |fields| => DefaultedField(fields[i]))
  }

  function DefaultedOutputs(outputs: seq<Output>): seq<Output> {
    seq(|outputs|, i requires 0 <= i < |outputs| => outputs[i].(fields := DefaultedFields(outputs[i].fields)))
  }

  function DefaultedInputs(inputs: seq<Input>): seq<Input> {
    seq(|inputs|, i requires 0 <= i < |inputs| => inputs[i].(fields := DefaultedFields(inputs[i].fields)))
  }

  function DefaultedEntity(e: Entity): Entity {
    e.(outputs := DefaultedOutputs(e.outputs), inputs := DefaultedInputs(e.inputs))
  }

  function DefaultedEntities(entities: seq<Entity>): seq<Entity> {
    seq(|entities|, i requires 0 <= i < |entities| => DefaultedEntity(entities[i]))
  }

  // ---------------------------------------------------------------- what is accepted

  /** Texts of which none is empty and no two are the same. */
  predicate UniqueNames(names: seq<Text>) {
    && (forall i :: 0 <= i < |names| ==> names[i] != [])
    && forall i, j :: 0 <= i < j < |names| ==> names[i] != names[j]
  }

  function FieldNames(fields: seq<Field>): seq<Text> {
    seq(|fields|, i requires 0 <= i < |fields| => fields[i].name)
  }

  function OutputNames(outputs: seq<Output>): seq<Text> {
    seq(|outputs|, i requires 0 <= i < |outputs| => outputs[i].name)
  }

  function InputNames(inputs: seq<Input>): seq<Text> {
    seq(|inputs|, i requires 0 <= i < |inputs| => inputs[i].name)
  }

  function EntityNames(entities: seq<Entity>): seq<Text> {
    seq(|entities|, i requires 0 <= i < |entities| => entities[i].name)
  }

  /** Fields as they are after defaulting: some, with addresses, and with unique names. */
  predicate ValidFields(fields: seq<Field>) {
    fields != [] && (forall i :: 0 <= i < |fields| ==> fields[i].address != []) && UniqueNames(FieldNames(fields))
  }

  predicate ValidEntity(e: Entity) {
    && UniqueNames(OutputNames(e.outputs)) && UniqueNames(InputNames(e.inputs))
    && (forall i :: 0 <= i < |e.outputs| ==> e.outputs[i].intervalOk && ValidFields(e.outputs[i].fields))
    && (forall i :: 0 <= i < |e.inputs| ==> ValidFields(e.inputs[i].fields))
    && (e.outputs != [] || e.inputs != [])
  }

  function OutputIds(outputs: seq<Output>): seq<uint16> {
    seq(|outputs|, i requires 0 <= i < |outputs| => outputs[i].writerGroupId)
  }

  /** The writer groups of all output datasets of the component. */
  function GroupIds(entities: seq<Entity>): seq<uint16> {
    if entities == [] then []
    else GroupIds(entities[..|entities| - 1]) + OutputIds(entities[|entities| - 1].outputs)
  }

  predicate NoRepeats(ids: seq<uint16>) {
    forall i, j :: 0 <= i < j < |ids| ==> ids[i] != ids[j]
  }

  function Defaulted(c: Staged): Staged {
    c.(entities := DefaultedEntities(c.entities))
  }

  predicate Valid(c: Staged) {
    && c.component != []
    && c.publisherId < WordSize(c.publisherIdType.Width()) && c.publisherId <= MAX_EXACT_PUBLISHER_ID
    && c.entities != [] && UniqueNames(EntityNames(c.entities))
    && (forall i :: 0 <= i < |c.entities| ==> ValidEntity(c.entities[i]))
    && NoRepeats(GroupIds(c.entities))
  }

  lemma Repeated(names: seq<Text>, k: nat)
    requires k < |names| && (names[k] == [] || names[k] in names[..k])
    ensures !UniqueNames(names)
  {
    if names[k] != [] {
      var i :| 0 <= i < k && names[..k][i] == names[k];
      assert names[i] == names[k];
    }
  }

  lemma OneMoreName(names: seq<Text>, k: nat)
    requires k < |names| && UniqueNames(names[..k]) && names[k] != [] && names[k] !in names[..k]
    ensures UniqueNames(names[..k + 1])
  {
    forall i | 0 <= i < k
      ensures names[i] != [] && names[i] != names[k]
    {
      assert names[..k][i] == names[i];
      assert names[..k][i] in names[..k];
    }
    forall i, j | 0 <= i < j < k
      ensures names[i] != names[j]
    {
      assert names[..k][i] == names[i] && names[..k][j] == names[j];
    }
  }

  lemma RepeatedId(ids: seq<uint16>, k: nat)
    requires k < |ids| && ids[k] in ids[..k]
    ensures !NoRepeats(ids)
  {
    var i :| 0 <= i < k && ids[..k][i] == ids[k];
    assert ids[i] == ids[k];
  }

  lemma OneMoreId(ids: seq<uint16>, k: nat)
    requires k < |ids| && NoRepeats(ids[..k]) && ids[k] !in ids[..k]
    ensures NoRepeats(ids[..k + 1])
  {
    forall i | 0 <= i < k
      ensures ids[i] != ids[k]
    {
      assert ids[..k][i] in ids[..k];
    }
    forall i, j | 0 <= i < j < k
      ensures ids[i] != ids[j]
    {
      assert ids[..k][i] == ids[i] && ids[..k][j] == ids[j];
    }
  }

  lemma {:induction false} GroupIdsFront(entities: seq<Entity>, e: nat)
    requires e <= |entities|
    ensures GroupIds(entities[..e]) <= GroupIds(entities)
  {
    if e < |entities| {
      GroupIdsFront(entities[..|entities| - 1], e);
      assert entities[..|entities| - 1][..e] == entities[..e];
    } else {
      assert entities[..e] == entities;
    }
  }

  // ---------------------------------------------------------------- validation

  /** Defaults the names of the fields of a dataset, and refuses what is not valid. */
  method FinalizeFields(fields: seq<Field>) returns (r: Option<seq<Field>>)
    ensures r == if ValidFields(DefaultedFields(fields)) then Some(DefaultedFields(fields)) else None
  {
    r := None;
    if fields == [] {
      assert DefaultedFields(fields) == [];
      return;
    }
    ghost var whole := DefaultedFields(fields);
    var out: seq<Field> := [];
    var seen: set<Text> := {};
    for f := 0 to |fields|
      invariant r == None && out == whole[..f]
      invariant forall i :: 0 <= i < f ==> whole[i].address != []
      invariant UniqueNames(FieldNames(whole)[..f])
      invariant forall n :: n in seen <==> n in FieldNames(whole)[..f]
    {
      assert whole[f] == DefaultedField(fields[f]);
      if fields[f].address == [] {
        assert whole[f].address == [];
        return;
      }
      var field := if fields[f].name == [] then fields[f].(name := LeafOf(fields[f].address)) else fields[f];
      if field.name == [] || field.name in seen {
        Repeated(FieldNames(whole), f);
        return;
      }
      OneMoreName(FieldNames(whole), f);
      seen := seen + {field.name};
      out := out + [field];
      assert FieldNames(whole)[..f + 1] == FieldNames(whole)[..f] + [field.name];
    }
    assert FieldNames(whole)[..|fields|] == FieldNames(whole) && whole[..|fields|] == whole;
    r := Some(out);
  }

  predicate OutputsOk(outputs: seq<Output>) {
    && UniqueNames(OutputNames(outputs))
    && (forall i :: 0 <= i < |outputs| ==> outputs[i].intervalOk && ValidFields(outputs[i].fields))
  }

  /** The output datasets of an entity; `groups` are the writer groups used so far. */
  method FinalizeOutputs(outputs: seq<Output>, groups: set<uint16>)
    returns (ok: bool, out: seq<Output>, used: set<uint16>)
    ensures ok <==>
      && OutputsOk(DefaultedOutputs(outputs)) && NoRepeats(OutputIds(outputs))
      && forall g :: g in groups ==> g !in OutputIds(outputs)
    ensures ok ==> out == DefaultedOutputs(outputs) && forall g :: g in used <==> g in groups || g in OutputIds(outputs)
  {
    hide ValidFields, UniqueNames, NoRepeats, DefaultedFields;
    ghost var whole, ids := DefaultedOutputs(outputs), OutputIds(outputs);
    ghost var names := OutputNames(whole);
    ok, out, used := false, [], groups;
    var seen: set<Text> := {};
    NothingRepeats();
    for d := 0 to |outputs|
      invariant !ok && out == whole[..d] && UniqueNames(names[..d]) && NoRepeats(ids[..d])
      invariant forall i :: 0 <= i < d ==> whole[i].intervalOk && ValidFields(whole[i].fields)
      invariant forall n :: n in seen <==> n in names[..d]
      invariant forall g :: g in used <==> g in groups || g in ids[..d]
      invariant forall g :: g in groups ==> g !in ids[..d]
    {
      var dataset := outputs[d];
      assert names[..d + 1] == names[..d] + [dataset.name] && ids[..d + 1] == ids[..d] + [dataset.writerGroupId];
      if dataset.name == [] || dataset.name in seen {
        Repeated(names, d);
        return;
      }
      if dataset.writerGroupId in used {
        if dataset.writerGroupId in ids[..d] {
          RepeatedId(ids, d);
        } else {
          assert ids[d] in groups && ids[d] in ids;
        }
        return;
      }
      var fields := FinalizeFields(dataset.fields);
      assert whole[d] == dataset.(fields := DefaultedFields(dataset.fields));
      if !dataset.intervalOk || fields.None? {
        return;
      }
      OneMoreName(names, d);
      OneMoreId(ids, d);
      seen := seen + {dataset.name};
      used := used + {dataset.writerGroupId};
      out := out + [dataset.(fields := fields.value)];
    }
    assert names[..|outputs|] == names && ids[..|outputs|] == ids;
    ok := true;
  }

  lemma NothingRepeats()
    ensures UniqueNames([]) && NoRepeats([])
  {
  }

  predicate InputsOk(inputs: seq<Input>) {
    UniqueNames(InputNames(inputs)) && forall i :: 0 <= i < |inputs| ==> ValidFields(inputs[i].fields)
  }

  method FinalizeInputs(inputs: seq<Input>) returns (r: Option<seq<Input>>)
    ensures r == if InputsOk(DefaultedInputs(inputs)) then Some(DefaultedInputs(inputs)) else None
  {
    hide ValidFields, UniqueNames, DefaultedFields;
    r := None;
    ghost var whole := DefaultedInputs(inputs);
    ghost var names := InputNames(whole);
    var out: seq<Input> := [];
    var seen: set<Text> := {};
    NothingRepeats();
    for d := 0 to |inputs|
      invariant r == None && out == whole[..d] && UniqueNames(names[..d])
      invariant forall i :: 0 <= i < d ==> ValidFields(whole[i].fields)
      invariant forall n :: n in seen <==> n in names[..d]
    {
      var dataset := inputs[d];
      assert names[..d + 1] == names[..d] + [dataset.name];
      if dataset.name == [] || dataset.name in seen {
        Repeated(names, d);
        return;
      }
      var fields := FinalizeFields(dataset.fields);
      assert whole[d] == dataset.(fields := DefaultedFields(dataset.fields));
      if fields.None? {
        return;
      }
      OneMoreName(names, d);
      seen := seen + {dataset.name};
      out := out + [dataset.(fields := fields.value)];
    }
    assert names[..|inputs|] == names && whole[..|inputs|] == whole;
    r := Some(out);
  }

  /** Accepts, with field names defaulted, exactly the configurations that are valid then. */
  method FinalizeAndValidate(c: Staged) returns (r: Option<Staged>)
    ensures r == if Valid(Defaulted(c)) then Some(Defaulted(c)) else None
  {
    hide OutputsOk, InputsOk, UniqueNames, NoRepeats, ValidEntity, DefaultedEntity, GroupIds;
    r := None;
    if c.component == [] || c.publisherId >= WordSize(c.publisherIdType.Width()) || c.publisherId > MAX_EXACT_PUBLISHER_ID
       || c.entities == [] {
      return;
    }
    ghost var whole := DefaultedEntities(c.entities);
    ghost var names := EntityNames(whole);
    var out: seq<Entity> := [];
    var seen: set<Text> := {};
    var groups: set<uint16> := {};
    NothingRepeats();
    NoGroupIds();
    for e := 0 to |c.entities|
      invariant r == None && out == whole[..e] && UniqueNames(names[..e])
      invariant forall i :: 0 <= i < e ==> ValidEntity(whole[i])
      invariant forall n :: n in seen <==> n in names[..e]
      invariant NoRepeats(GroupIds(whole[..e])) && forall g :: g in groups <==> g in GroupIds(whole[..e])
    {
      var entity := c.entities[e];
      assert whole[e] == DefaultedEntity(entity);
      DefaultedKeeps(entity);
      assert names[..e + 1] == names[..e] + [entity.name];
      if entity.name == [] || entity.name in seen {
        Repeated(names, e);
        return;
      }
      GroupIdsOne(whole, e);
      GroupIdsFront(whole, e + 1);
      ghost var before := GroupIds(whole[..e]);
      IdsTogether(before, OutputIds(entity.outputs), GroupIds(whole));
      var ok, outputs, used := FinalizeOutputs(entity.outputs, groups);
      var inputs := FinalizeInputs(entity.inputs);
      EntityParts(entity);
      if !ok || inputs.None? || (entity.outputs == [] && entity.inputs == []) {
        return;
      }
      OneMoreName(names, e);
      seen := seen + {entity.name};
      groups := used;
      out := out + [entity.(outputs := outputs, inputs := inputs.value)];
    }
    assert names[..|c.entities|] == names && whole[..|c.entities|] == whole;
    r := Some(c.(entities := out));
  }

  lemma NoGroupIds()
    ensures GroupIds([]) == []
  {
  }

  lemma DefaultedKeeps(e: Entity)
    ensures DefaultedEntity(e).name == e.name && OutputIds(DefaultedEntity(e).outputs) == OutputIds(e.outputs)
    ensures DefaultedEntity(e) == e.(outputs := DefaultedOutputs(e.outputs), inputs := DefaultedInputs(e.inputs))
  {
  }

  lemma EntityParts(e: Entity)
    ensures ValidEntity(DefaultedEntity(e)) <==>
      OutputsOk(DefaultedOutputs(e.outputs)) && InputsOk(DefaultedInputs(e.inputs)) && (e.outputs != [] || e.inputs != [])
  {
    hide ValidFields, UniqueNames;
  }

  lemma GroupIdsOne(entities: seq<Entity>, e: nat)
    requires e < |entities|
    ensures GroupIds(entities[..e + 1]) == GroupIds(entities[..e]) + OutputIds(entities[e].outputs)
  {
    assert entities[..e + 1][..e] == entities[..e];
  }

  /** Joined to what comes before, ids repeat if they do among themselves or with it, and so do all ids. */
  lemma IdsTogether(before: seq<uint16>, ids: seq<uint16>, all: seq<uint16>)
    requires NoRepeats(before) && before + ids <= all
    ensures NoRepeats(before + ids) <==> NoRepeats(ids) && forall g :: g in before ==> g !in ids
    ensures NoRepeats(all) ==> NoRepeats(before + ids)
  {
    var both := before + ids;
    if NoRepeats(both) {
      forall i, j | 0 <= i < j < |ids|
        ensures ids[i] != ids[j]
      {
        assert both[|before| + i] == ids[i] && both[|before| + j] == ids[j];
      }
      forall g | g in before
        ensures g !in ids
      {
        var i :| 0 <= i < |before| && before[i] == g;
        forall j | 0 <= j < |ids|
          ensures ids[j] != g
        {
          assert both[i] == g && both[|before| + j] == ids[j];
        }
      }
    }
    if NoRepeats(ids) && forall g :: g in before ==> g !in ids {
      forall i, j | 0 <= i < j < |both|
        ensures both[i] != both[j]
      {
        assert i < |before| ==> both[i] in before;
        assert j >= |before| ==> both[j] == ids[j - |before|];
      }
    }
    if NoRepeats(all) {
      forall i, j | 0 <= i < j < |both|
        ensures both[i] != both[j]
      {
        assert all[i] == both[i] && all[j] == both[j];
      }
    }
  }
}
