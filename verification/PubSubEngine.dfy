/** The Pub/Sub engine as it runs: its containers, changed in place by each operation. */
module PubSubEngine {
  import opened Bytes
  import opened Wrappers
  import opened PubSubModel

  /** A configured connection: the keys of its writer groups and of its readers. */
  datatype Connection = Connection(at: ReceiverKey, groups: seq<GroupKey>, readers: seq<ReaderKey>)

  /**
   What the environment lets happen at start-up: setting up a group (its socket, its timer and the
   variables of its writers) and the targets of a reader, by the number of the connection and of the group
   or reader in it, and binding a receiver.
   */
  datatype Environment = Environment(
    groupOk: (nat, nat) -> bool, readerOk: (nat, nat) -> bool, bindOk: ReceiverKey -> bool)

  /** The engine just after its io thread has come up without configured entities. */
  const Started := State(true, [], map[], map[])

  function StaticReader(at: ReceiverKey): Reader {
    Reader([], at, None, false, false)
  }

  function StaticGroups(keys: seq<GroupKey>): seq<WriterGroup> {
    seq(|keys|, i requires 0 <= i < |keys| => WriterGroup(keys[i], []))
  }

  function ConfiguredGroups(connections: seq<Connection>): seq<WriterGroup> {
    if connections == [] then []
    else ConfiguredGroups(connections[..|connections| - 1]) + StaticGroups(connections[|connections| - 1].groups)
  }

  function WithReaders(readers: map<ReaderKey, Reader>, keys: seq<ReaderKey>, at: ReceiverKey): map<ReaderKey, Reader> {
    if keys == [] then readers
    else WithReaders(readers, keys[..|keys| - 1], at)[keys[|keys| - 1] := StaticReader(at)]
  }

  function ConfiguredReaders(connections: seq<Connection>): map<ReaderKey, Reader> {
    if connections == [] then map[]
    else
      var last := connections[|connections| - 1];
      WithReaders(ConfiguredReaders(connections[..|connections| - 1]), last.readers, last.at)
  }

  /** Keys that are not in use yet and do not repeat. */
  predicate FreshKeys(readers: map<ReaderKey, Reader>, keys: seq<ReaderKey>) {
    && (forall i :: 0 <= i < |keys| ==> keys[i] !in readers)
    && forall i, j :: 0 <= i < j < |keys| ==> keys[i] != keys[j]
  }

  /**
   Every group and every reader can be set up, every configured reader has a key of its own, and every
   receiver that is needed can be bound.
   */
  predicate Startable(connections: seq<Connection>, env: Environment) {
    if connections == [] then true
    else
      var front, last := connections[..|connections| - 1], connections[|connections| - 1];
      && Startable(front, env)
      && (forall g :: 0 <= g < |last.groups| ==> env.groupOk(|front|, g))
      && (forall r :: 0 <= r < |last.readers| ==> env.readerOk(|front|, r))
      && FreshKeys(ConfiguredReaders(front), last.readers)
      && (last.readers != [] ==> env.bindOk(last.at))
  }

  lemma {:induction false} StartableFront(connections: seq<Connection>, c: nat, env: Environment)
    requires c <= |connections| && Startable(connections, env)
    ensures Startable(connections[..c], env)
  {
    if c < |connections| {
      StartableFront(connections[..|connections| - 1], c, env);
      assert connections[..|connections| - 1][..c] == connections[..c];
    } else {
      assert connections[..c] == connections;
    }
  }

  lemma NoConnections(env: Environment)
    ensures Startable([], env) && ConfiguredGroups([]) == [] && ConfiguredReaders([]) == map[]
  {
  }

  lemma OneMoreConnection(connections: seq<Connection>, c: nat, env: Environment)
    requires c < |connections|
    ensures var front, next, last := connections[..c], connections[..c + 1], connections[c];
      && ConfiguredGroups(next) == ConfiguredGroups(front) + StaticGroups(last.groups)
      && ConfiguredReaders(next) == WithReaders(ConfiguredReaders(front), last.readers, last.at)
      && (Startable(next, env) <==>
            && Startable(front, env)
            && (forall g :: 0 <= g < |last.groups| ==> env.groupOk(c, g))
            && (forall r :: 0 <= r < |last.readers| ==> env.readerOk(c, r))
            && FreshKeys(ConfiguredReaders(front), last.readers)
            && (last.readers != [] ==> env.bindOk(last.at)))
  {
    hide FreshKeys, WithReaders;
    assert connections[..c + 1][..c] == connections[..c];
  }

  lemma WithNoReaders(readers: map<ReaderKey, Reader>, at: ReceiverKey)
    ensures WithReaders(readers, [], at) == readers
  {
  }

  lemma WithReadersOne(readers: map<ReaderKey, Reader>, keys: seq<ReaderKey>, r: nat, at: ReceiverKey)
    requires r < |keys|
    ensures WithReaders(readers, keys[..r + 1], at) == WithReaders(readers, keys[..r], at)[keys[r] := StaticReader(at)]
  {
    assert keys[..r + 1][..r] == keys[..r];
  }

  lemma {:induction false} WithReadersKeys(readers: map<ReaderKey, Reader>, keys: seq<ReaderKey>, at: ReceiverKey, k: ReaderKey)
    ensures k in WithReaders(readers, keys, at) <==> k in readers || k in keys
  {
    if keys == [] {
    } else {
      WithReadersKeys(readers, keys[..|keys| - 1], at, k);
      assert keys == keys[..|keys| - 1] + [keys[|keys| - 1]];
    }
  }

  lemma FreshKeysOne(readers: map<ReaderKey, Reader>, keys: seq<ReaderKey>, r: nat)
    requires r < |keys| && FreshKeys(readers, keys[..r]) && keys[r] !in readers && keys[r] !in keys[..r]
    ensures FreshKeys(readers, keys[..r + 1])
  {
    forall i | 0 <= i < r
      ensures keys[i] != keys[r]
    {
      assert keys[..r][i] in keys[..r];
    }
  }

  lemma RepeatedKey(readers: map<ReaderKey, Reader>, keys: seq<ReaderKey>, r: nat)
    requires r < |keys| && (keys[r] in readers || keys[r] in keys[..r])
    ensures !FreshKeys(readers, keys)
  {
    if keys[r] in keys[..r] {
      var i :| 0 <= i < r && keys[..r][i] == keys[r];
      assert keys[i] == keys[r];
    }
  }

  lemma EraseBegin(groups: seq<WriterGroup>, tag: Text)
    ensures groups[..0] + WithoutTag(groups[0..], tag) == WithoutTag(groups, tag)
    ensures WithoutTag([], tag) == []
  {
  }

  /** Erasing at `i`, or going past it, leaves the same result to come. */
  lemma EraseStep(groups: seq<WriterGroup>, i: nat, tag: Text)
    requires i < |groups|
    ensures var erased := groups[..i] + groups[i + 1..];
      groups[i].ownerTag == tag ==>
        erased[..i] + WithoutTag(erased[i..], tag) == groups[..i] + WithoutTag(groups[i..], tag)
    ensures groups[i].ownerTag != tag ==>
      groups[..i + 1] + WithoutTag(groups[i + 1..], tag) == groups[..i] + WithoutTag(groups[i..], tag)
  {
    var rest := groups[i..];
    assert rest[1..] == groups[i + 1..];
    assert WithoutTag(rest, tag) == (if groups[i].ownerTag == tag then [] else [groups[i]]) + WithoutTag(groups[i + 1..], tag);
    hide WithoutTag;
    assert groups[..i + 1] == groups[..i] + [groups[i]];
    var erased := groups[..i] + groups[i + 1..];
    assert erased[..i] == groups[..i] && erased[i..] == groups[i + 1..];
  }

  class Engine {
    var running: bool
    var groups: seq<WriterGroup>
    var readers: map<ReaderKey, Reader>
    var receivers: map<ReceiverKey, nat>

    ghost function View(): State
      reads this
    {
      State(running, groups, readers, receivers)
    }

    constructor ()
      ensures View() == State(false, [], map[], map[])
    {
      running, groups, readers, receivers := false, [], map[], map[];
    }

    method AcquireReceiver(at: ReceiverKey, bindOk: bool) returns (ok: bool)
      modifies this`receivers
      ensures ok == Acquire(old(receivers), at, bindOk).Some?
      ensures receivers == if ok then Acquire(old(receivers), at, bindOk).value else old(receivers)
    {
      if at in receivers {
        receivers := receivers[at := receivers[at] + 1];
        return true;
      }
      if !bindOk {
        return false;
      }
      receivers := receivers[at := 1];
      ok := true;
    }

    method ReleaseReceiver(at: ReceiverKey)
      requires at in receivers ==> receivers[at] > 0
      modifies this`receivers
      ensures receivers == Release(old(receivers), at)
    {
      if at !in receivers {
        return;
      }
      var count := receivers[at] - 1;
      if count == 0 {
        receivers := receivers - {at};
      } else {
        receivers := receivers[at := count];
      }
    }

    /**
     Starts with the configured connections, exactly when every group and reader can be set up, no two
     configured readers have the same key and every receiver can be bound. Every receiver is then counted
     once for each reader on it.
     */
    method BuildRuntimes(connections: seq<Connection>, env: Environment) returns (ok: bool)
      requires View() == State(false, [], map[], map[])
      modifies this
      ensures ok <==> Startable(connections, env)
      ensures ok ==>
        var readers := ConfiguredReaders(connections);
        View() == State(true, ConfiguredGroups(connections), readers, Usage(readers))
      ensures !ok ==> !running
    {
      hide Usage, FreshKeys, WithReaders, Startable, ConfiguredGroups, ConfiguredReaders;
      NoUsage(readers);
      NoConnections(env);
      assert connections[..0] == [];
      for c := 0 to |connections|
        invariant !running && Startable(connections[..c], env)
        invariant groups == ConfiguredGroups(connections[..c])
        invariant readers == ConfiguredReaders(connections[..c]) && receivers == Usage(readers)
        invariant forall at :: at in receivers ==> env.bindOk(at)
      {
        var connection := connections[c];
        OneMoreConnection(connections, c, env);
        var groupOk := (g: nat) => env.groupOk(c, g);
        var readerOk := (r: nat) => env.readerOk(c, r);
        ok := AddStaticGroups(connection.groups, groupOk);
        if ok {
          ok := AddStaticReaders(connection.readers, connection.at, env.bindOk(connection.at), readerOk);
        }
        assert forall g: nat :: groupOk(g) == env.groupOk(c, g);
        assert forall r: nat :: readerOk(r) == env.readerOk(c, r);
        if !ok {
          if Startable(connections, env) {
            StartableFront(connections, c + 1, env);
          }
          return;
        }
      }
      assert connections[..|connections|] == connections;
      running := true;
      ok := true;
    }

    method AddStaticGroups(keys: seq<GroupKey>, groupOk: nat -> bool) returns (ok: bool)
      modifies this`groups
      ensures ok <==> forall g :: 0 <= g < |keys| ==> groupOk(g)
      ensures ok ==> groups == old(groups) + StaticGroups(keys)
    {
      for i := 0 to |keys|
        invariant groups == old(groups) + StaticGroups(keys)[..i]
        invariant forall g :: 0 <= g < i ==> groupOk(g)
      {
        if !groupOk(i) {
          return false;
        }
        groups := groups + [WriterGroup(keys[i], [])];
      }
      ok := true;
    }

    method AddStaticReader(key: ReaderKey, at: ReceiverKey, bindOk: bool) returns (ok: bool)
      requires receivers == Usage(readers) && key !in readers && (at in receivers ==> bindOk)
      modifies this`readers, this`receivers
      ensures ok == bindOk
      ensures ok ==> readers == old(readers)[key := StaticReader(at)] && receivers == Usage(readers)
      ensures ok ==> forall other :: other in receivers ==> other in old(receivers) || other == at
    {
      hide Usage;
      UsageAfterAdd(readers, key, StaticReader(at));
      readers := readers[key := StaticReader(at)];
      ok := AcquireReceiver(at, bindOk);
    }

    /** Adds the readers of one connection; the first of them may have to bind its receiver. */
    method AddStaticReaders(keys: seq<ReaderKey>, at: ReceiverKey, bindOk: bool, readerOk: nat -> bool)
      returns (ok: bool)
      requires receivers == Usage(readers) && (at in receivers ==> bindOk)
      modifies this`readers, this`receivers
      ensures ok <==>
        && FreshKeys(old(readers), keys) && (keys != [] ==> bindOk)
        && forall r :: 0 <= r < |keys| ==> readerOk(r)
      ensures ok ==> readers == WithReaders(old(readers), keys, at) && receivers == Usage(readers)
      ensures ok ==> forall other :: other in receivers ==> other in old(receivers) || (other == at && bindOk)
    {
      hide Usage, WithReaders;
      WithNoReaders(readers, at);
      for r := 0 to |keys|
        invariant receivers == Usage(readers) && readers == WithReaders(old(readers), keys[..r], at)
        invariant FreshKeys(old(readers), keys[..r]) && (r > 0 ==> bindOk)
        invariant forall q :: 0 <= q < r ==> readerOk(q)
        invariant forall other :: other in receivers ==> other in old(receivers) || (other == at && bindOk)
      {
        if !readerOk(r) {
          return false;
        }
        WithReadersOne(old(readers), keys, r, at);
        WithReadersKeys(old(readers), keys[..r], at, keys[r]);
        if keys[r] in readers {
          RepeatedKey(old(readers), keys, r);
          return false;
        }
        ok := AddStaticReader(keys[r], at, bindOk);
        if !ok {
          return;
        }
        FreshKeysOne(old(readers), keys, r);
      }
      assert keys[..|keys|] == keys;
      ok := true;
    }

    method AddDynamicWriterGroup(group: WriterGroup, fieldCount: nat, socketOk: bool) returns (ok: bool)
      modifies this`groups
      ensures ok == AddGroup(old(View()), group, fieldCount, socketOk).Some?
      ensures View() == if ok then AddGroup(old(View()), group, fieldCount, socketOk).value else old(View())
    {
      if !running || fieldCount == 0 {
        return false;
      }
      var i := 0;
      while i < |groups|
        invariant 0 <= i <= |groups|
        invariant forall j :: 0 <= j < i ==> groups[j].key != group.key
      {
        if groups[i].key == group.key {
          return false;
        }
        i := i + 1;
      }
      if !socketOk {
        return false;
      }
      groups := groups + [group];
      ok := true;
    }

    method AddDynamicReader(key: ReaderKey, reader: Reader, targetCount: nat, bindOk: bool) returns (ok: bool)
      modifies this`readers, this`receivers
      ensures ok == AddReader(old(View()), key, reader, targetCount, bindOk).Some?
      ensures View() == if ok then AddReader(old(View()), key, reader, targetCount, bindOk).value else old(View())
    {
      if !running || targetCount == 0 || key in readers {
        return false;
      }
      ok := AcquireReceiver(reader.at, bindOk);
      if ok {
        readers := readers[key := reader];
      }
    }

    /** Erases, in place, the groups under a tag. */
    method EraseGroups(tag: Text)
      modifies this`groups
      ensures groups == WithoutTag(old(groups), tag)
    {
      hide WithoutTag;
      var i := 0;
      EraseBegin(groups, tag);
      while i < |groups|
        invariant 0 <= i <= |groups|
        invariant groups[..i] + WithoutTag(groups[i..], tag) == WithoutTag(old(groups), tag)
        decreases |groups| - i
      {
        EraseStep(groups, i, tag);
        if groups[i].ownerTag == tag {
          groups := groups[..i] + groups[i + 1..];
        } else {
          i := i + 1;
        }
      }
      assert groups[..i] == groups && groups[i..] == [];
      EraseBegin([], tag);
    }

    /** Erases the readers under a tag, releasing the receiver of each. */
    method EraseReaders(tag: Text)
      requires Consistent(View())
      modifies this`readers, this`receivers
      ensures readers == ReadersWithoutTag(old(readers), tag) && receivers == Usage(readers)
    {
      hide Usage;
      var todo := readers.Keys;
      while todo != {}
        invariant todo <= readers.Keys && readers.Keys <= old(readers.Keys)
        invariant receivers == Usage(readers)
        invariant forall k :: k in old(readers) ==>
          (k in readers <==> k in todo || old(readers)[k].ownerTag != tag)
        invariant forall k :: k in readers ==> readers[k] == old(readers)[k]
        decreases todo
      {
        var k :| k in todo;
        if readers[k].ownerTag == tag {
          UsageAfterRemove(readers, k);
          ReleaseReceiver(readers[k].at);
          readers := readers - {k};
        }
        todo := todo - {k};
      }
    }

    method RemoveDynamic(tag: Text)
      requires Consistent(View())
      modifies this
      ensures View() == Remove(old(View()), tag) && Consistent(View())
    {
      hide Usage;
      RemoveKeepsConsistent(View(), tag);
      if !running {
        return;
      }
      EraseGroups(tag);
      EraseReaders(tag);
    }

    method ReaderDataSeen(tag: Text) returns (seen: bool)
      ensures seen == DataSeen(View(), tag)
    {
      seen := false;
      if !running {
        return;
      }
      var todo := readers.Keys;
      while todo != {}
        invariant todo <= readers.Keys && !seen
        invariant forall k :: k in readers && k !in todo ==> !(readers[k].ownerTag == tag && readers[k].dataSeen)
        decreases todo
      {
        var k :| k in todo;
        if readers[k].ownerTag == tag && readers[k].dataSeen {
          return true;
        }
        todo := todo - {k};
      }
    }

    method Shutdown()
      modifies this
      ensures View() == Stopped(old(View()))
    {
      if !running {
        return;
      }
      groups, receivers, readers := [], map[], map[];
      running := false;
    }
  }

  lemma NoUsage(readers: map<ReaderKey, Reader>)
    requires readers == map[]
    ensures Usage(readers) == map[]
  {
  }

  // ---------------------------------------------------------------- what a start needs, all connections at once

  /** The r-th reader of the c-th connection. */
  predicate IsReaderAt(connections: seq<Connection>, c: int, r: int) {
    0 <= c < |connections| && 0 <= r < |connections[c].readers|
  }

  predicate IsGroupAt(connections: seq<Connection>, c: int, g: int) {
    0 <= c < |connections| && 0 <= g < |connections[c].groups|
  }

  ghost predicate Configured(connections: seq<Connection>, key: ReaderKey) {
    exists c, r :: IsReaderAt(connections, c, r) && connections[c].readers[r] == key
  }

  /** No two configured readers have the same key. */
  ghost predicate ReadersDistinct(connections: seq<Connection>) {
    forall c, r, c', r' :: IsReaderAt(connections, c, r) && IsReaderAt(connections, c', r') ==>
      connections[c].readers[r] == connections[c'].readers[r'] ==> c == c' && r == r'
  }

  ghost predicate AllSetUp(connections: seq<Connection>, env: Environment) {
    && (forall c, g :: IsGroupAt(connections, c, g) ==> env.groupOk(c, g))
    && (forall c, r :: IsReaderAt(connections, c, r) ==> env.readerOk(c, r))
    && (forall c, r :: IsReaderAt(connections, c, r) ==> env.bindOk(connections[c].at))
  }

  lemma {:induction false} ReadersConfigured(connections: seq<Connection>, key: ReaderKey)
    ensures key in ConfiguredReaders(connections) <==> Configured(connections, key)
  {
    if connections != [] {
      var n := |connections| - 1;
      var front, last := connections[..n], connections[n];
      ReadersConfigured(front, key);
      WithReadersKeys(ConfiguredReaders(front), last.readers, last.at, key);
      if Configured(front, key) {
        var c, r :| IsReaderAt(front, c, r) && front[c].readers[r] == key;
        assert IsReaderAt(connections, c, r) && connections[c].readers[r] == key;
      }
      if key in last.readers {
        var r :| 0 <= r < |last.readers| && last.readers[r] == key;
        assert IsReaderAt(connections, n, r);
      }
      if c, r :| IsReaderAt(connections, c, r) && connections[c].readers[r] == key {
        assert c < n ==> IsReaderAt(front, c, r) && front[c].readers[r] == key;
      }
    }
  }

  /** The engine starts exactly when everything can be set up and the keys of the readers are distinct. */
  lemma {:induction false} StartableExactly(connections: seq<Connection>, env: Environment)
    ensures Startable(connections, env) <==> AllSetUp(connections, env) && ReadersDistinct(connections)
  {
    hide ConfiguredReaders, Configured;
    if connections != [] {
      var n := |connections| - 1;
      var front := connections[..n];
      StartableExactly(front, env);
      OneMoreSetUp(connections, env);
      OneMoreDistinct(connections);
    }
  }

  lemma OneMoreSetUp(connections: seq<Connection>, env: Environment)
    requires connections != []
    ensures var front, last := connections[..|connections| - 1], connections[|connections| - 1];
      AllSetUp(connections, env) <==>
        && AllSetUp(front, env)
        && (forall g :: 0 <= g < |last.groups| ==> env.groupOk(|front|, g))
        && (forall r :: 0 <= r < |last.readers| ==> env.readerOk(|front|, r))
        && (last.readers != [] ==> env.bindOk(last.at))
  {
    var n := |connections| - 1;
    var front, last := connections[..n], connections[n];
    forall c, r
      ensures IsReaderAt(connections, c, r) <==>
        (IsReaderAt(front, c, r) && front[c] == connections[c]) || (c == n && 0 <= r < |last.readers|)
    {
    }
    forall c, g
      ensures IsGroupAt(connections, c, g) <==>
        (IsGroupAt(front, c, g) && front[c] == connections[c]) || (c == n && 0 <= g < |last.groups|)
    {
    }
    hide IsReaderAt, IsGroupAt;
    if AllSetUp(connections, env) {
      forall r | 0 <= r < |last.readers|
        ensures env.readerOk(n, r) && env.bindOk(last.at)
      {
        assert IsReaderAt(connections, n, r);
      }
      forall g | 0 <= g < |last.groups|
        ensures env.groupOk(n, g)
      {
        assert IsGroupAt(connections, n, g);
      }
      assert last.readers != [] ==> env.readerOk(n, 0) && env.bindOk(last.at);
    }
  }

  lemma OneMoreDistinct(connections: seq<Connection>)
    requires connections != []
    ensures var front, last := connections[..|connections| - 1], connections[|connections| - 1];
      ReadersDistinct(connections) <==> ReadersDistinct(front) && FreshKeys(ConfiguredReaders(front), last.readers)
  {
    hide ConfiguredReaders, Configured;
    var n := |connections| - 1;
    var front, last := connections[..n], connections[n];
    if ReadersDistinct(connections) {
      forall i | 0 <= i < |last.readers|
        ensures last.readers[i] !in ConfiguredReaders(front)
      {
        LastNotInFront(connections, i);
      }
      forall i, j | 0 <= i < j < |last.readers|
        ensures last.readers[i] != last.readers[j]
      {
        assert IsReaderAt(connections, n, i) && IsReaderAt(connections, n, j);
      }
      forall c, r | IsReaderAt(front, c, r)
        ensures IsReaderAt(connections, c, r) && front[c] == connections[c]
      {
      }
    }
    if ReadersDistinct(front) && FreshKeys(ConfiguredReaders(front), last.readers) {
      forall c, r, c', r' | IsReaderAt(connections, c, r) && IsReaderAt(connections, c', r')
        ensures connections[c].readers[r] == connections[c'].readers[r'] ==> c == c' && r == r'
      {
        FrontOrLast(connections, c, r);
        FrontOrLast(connections, c', r');
      }
    }
  }

  lemma LastNotInFront(connections: seq<Connection>, i: nat)
    requires connections != [] && ReadersDistinct(connections) && i < |connections[|connections| - 1].readers|
    ensures connections[|connections| - 1].readers[i] !in ConfiguredReaders(connections[..|connections| - 1])
  {
    hide ConfiguredReaders;
    var n := |connections| - 1;
    var front, key := connections[..n], connections[n].readers[i];
    forall c, r | IsReaderAt(front, c, r)
      ensures front[c].readers[r] != key
    {
      assert IsReaderAt(connections, c, r) && front[c] == connections[c];
      assert IsReaderAt(connections, n, i);
    }
    ReadersConfigured(front, key);
  }

  lemma FrontOrLast(connections: seq<Connection>, c: int, r: int)
    requires IsReaderAt(connections, c, r)
    ensures var n := |connections| - 1;
      if c < n then
        && IsReaderAt(connections[..n], c, r) && connections[..n][c] == connections[c]
        && connections[c].readers[r] in ConfiguredReaders(connections[..n])
      else c == n
  {
    hide ConfiguredReaders;
    var n := |connections| - 1;
    if c < n {
      ReadersConfigured(connections[..n], connections[c].readers[r]);
      assert IsReaderAt(connections[..n], c, r);
    }
  }

  /** After a start every configured reader is there, at its connection's address, and nobody owns it. */
  lemma {:induction false} StartedReaders(connections: seq<Connection>, env: Environment, c: nat, r: nat)
    requires Startable(connections, env) && IsReaderAt(connections, c, r)
    ensures var readers, key := ConfiguredReaders(connections), connections[c].readers[r];
      key in readers && readers[key] == Reader([], connections[c].at, None, false, false)
  {
    hide FreshKeys;
    var n := |connections| - 1;
    var front, last := connections[..n], connections[n];
    ReadersConfigured(connections, connections[c].readers[r]);
    assert Configured(connections, connections[c].readers[r]);
    if c < n {
      StartedReaders(front, env, c, r);
      ReaderKept(ConfiguredReaders(front), last.readers, last.at, connections[c].readers[r]);
      StartableExactly(connections, env);
      forall r' | 0 <= r' < |last.readers|
        ensures last.readers[r'] != connections[c].readers[r]
      {
        assert IsReaderAt(connections, n, r');
      }
    } else {
      ReaderGiven(ConfiguredReaders(front), last.readers, last.at, r);
    }
  }

  lemma {:induction false} ReaderKept(readers: map<ReaderKey, Reader>, keys: seq<ReaderKey>, at: ReceiverKey, key: ReaderKey)
    requires key in readers
    ensures key !in keys ==> key in WithReaders(readers, keys, at) && WithReaders(readers, keys, at)[key] == readers[key]
  {
    if keys != [] {
      ReaderKept(readers, keys[..|keys| - 1], at, key);
      assert keys == keys[..|keys| - 1] + [keys[|keys| - 1]];
    }
  }

  lemma {:induction false} ReaderGiven(readers: map<ReaderKey, Reader>, keys: seq<ReaderKey>, at: ReceiverKey, r: nat)
    requires r < |keys|
    ensures keys[r] in WithReaders(readers, keys, at)
    ensures WithReaders(readers, keys, at)[keys[r]] == Reader([], at, None, false, false)
  {
    if r < |keys| - 1 {
      ReaderGiven(readers, keys[..|keys| - 1], at, r);
    }
  }

  /** And every configured group, in the order of the configuration, behind those of the connections before. */
  lemma {:induction false} StartedGroups(connections: seq<Connection>, c: nat, g: nat)
    requires c < |connections| && g < |connections[c].groups|
    ensures var before := |ConfiguredGroups(connections[..c])|;
      && before + g < |ConfiguredGroups(connections)|
      && ConfiguredGroups(connections)[before + g] == WriterGroup(connections[c].groups[g], [])
    ensures |ConfiguredGroups(connections[..c + 1])| == |ConfiguredGroups(connections[..c])| + |connections[c].groups|
  {
    var n := |connections| - 1;
    assert connections[..c + 1][..c] == connections[..c];
    if c < n {
      StartedGroups(connections[..n], c, g);
      assert connections[..n][..c] == connections[..c] && connections[..n][..c + 1] == connections[..c + 1];
    } else {
      assert connections[..c + 1] == connections;
    }
  }
}
