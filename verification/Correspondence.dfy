/**
 Which connections have their data plane up, and what it means that the Pub/Sub engine's containers
 hold exactly the groups and readers of those connections.
 */
module Correspondence {
  import opened Bytes
  import opened Wrappers
  import opened PubSubModel
  import opened FxModel
  import opened ConnectionSteps

  /** A connection whose data plane is up. */
  datatype Link = Link(role: Role, tag: Text)

  type Links = map<Text, Link>

  /** The active endpoints, without one whose data plane has been taken down already. */
  function ActiveLinks(s: Fx, gone: Option<Text>): Links {
    map n | n in s.endpoints && s.endpoints[n].active && Some(n) != gone
      :: Link(s.endpoints[n].role, s.endpoints[n].ownerTag)
  }

  function Gone(caller: Caller): Option<Text> {
    if caller.Removed? then Some(caller.name) else None
  }

  /** The connections whose data plane is up, those on their way to an endpoint included. */
  function LinksOf(w: World): Links {
    var active := ActiveLinks(w.fx, Gone(w.caller));
    if w.caller.Building? || w.caller.Undoing? then
      active[w.caller.plan.name := Link(w.caller.plan.endpoint.role, w.caller.plan.endpoint.ownerTag)]
    else active
  }

  predicate FreshTag(links: Links, tag: Text) {
    tag != [] && forall n :: n in links ==> links[n].tag != tag
  }

  /** Every connection has a tag of its own. */
  predicate TagsDistinct(links: Links) {
    && (forall n :: n in links ==> links[n].tag != [])
    && (forall n, m :: n in links && m in links && n != m ==> links[n].tag != links[m].tag)
  }

  predicate Linked(links: Links, link: Link) {
    exists n :: n in links && links[n] == link
  }

  predicate HasGroupTag(groups: seq<WriterGroup>, tag: Text) {
    exists g :: g in groups && g.ownerTag == tag
  }

  /** No two dynamic groups are under the same tag. */
  predicate GroupTagsUnique(groups: seq<WriterGroup>) {
    forall i, j :: 0 <= i < j < |groups| && groups[i].ownerTag != [] ==> groups[i].ownerTag != groups[j].ownerTag
  }

  /** The dynamic groups are those of the publishing connections, one each. */
  predicate GroupsMatch(groups: seq<WriterGroup>, links: Links) {
    && (forall g :: g in groups && g.ownerTag != [] ==> Linked(links, Link(Publisher, g.ownerTag)))
    && GroupTagsUnique(groups)
    && (forall n :: n in links && links[n].role.Publisher? ==> HasGroupTag(groups, links[n].tag))
  }

  predicate HasReaderTag(readers: map<ReaderKey, Reader>, tag: Text) {
    exists k :: k in readers && readers[k].ownerTag == tag
  }

  /** A static reader has no connection; a dynamic one is linked to the one it signals. */
  predicate ReaderLinked(r: Reader, links: Links) {
    if r.ownerTag == [] then r.connection.None?
    else r.connection.Some? && r.connection.value in links && links[r.connection.value] == Link(Subscriber, r.ownerTag)
  }

  predicate ReaderTagsUnique(readers: map<ReaderKey, Reader>) {
    forall k, l :: k in readers && l in readers && k != l && readers[k].ownerTag != [] ==>
      readers[k].ownerTag != readers[l].ownerTag
  }

  /** The dynamic readers are those of the subscribing connections, one each. */
  predicate ReadersMatch(readers: map<ReaderKey, Reader>, links: Links) {
    && (forall k :: k in readers ==> ReaderLinked(readers[k], links))
    && ReaderTagsUnique(readers)
    && (forall n :: n in links && links[n].role.Subscriber? ==> HasReaderTag(readers, links[n].tag))
  }

  /** The dynamic groups and readers are exactly those of the connections, one each. */
  predicate Corresponds(ps: PubSub, links: Links) {
    TagsDistinct(links) && GroupsMatch(ps.groups, links) && ReadersMatch(ps.readers, links)
  }

  // ---------------------------------------------------------------- groups

  lemma LinkedAfterAdd(links: Links, name: Text, added: Link, link: Link)
    requires name !in links && Linked(links, link)
    ensures Linked(links[name := added], link)
  {
    var n :| n in links && links[n] == link;
    assert links[name := added][n] == link;
  }

  lemma LinkedItself(links: Links, name: Text)
    requires name in links
    ensures Linked(links, links[name])
  {
  }

  lemma GroupsMatchAddGroup(groups: seq<WriterGroup>, links: Links, name: Text, g: WriterGroup)
    requires GroupsMatch(groups, links) && name !in links && FreshTag(links, g.ownerTag)
    ensures GroupsMatch(groups + [g], links[name := Link(Publisher, g.ownerTag)])
  {
    hide Linked, HasGroupTag;
    var link := Link(Publisher, g.ownerTag);
    var after := links[name := link];
    forall h | h in groups + [g] && h.ownerTag != []
      ensures Linked(after, Link(Publisher, h.ownerTag))
    {
      if h in groups {
        LinkedAfterAdd(links, name, link, Link(Publisher, h.ownerTag));
      } else {
        LinkedItself(after, name);
      }
    }
    forall n | n in after && after[n].role.Publisher?
      ensures HasGroupTag(groups + [g], after[n].tag)
    {
      HasGroupTagAfterAdd(groups, g, after[n].tag);
    }
    TagUnusedByGroups(groups, links, g.ownerTag);
  }

  lemma HasGroupTagAfterAdd(groups: seq<WriterGroup>, g: WriterGroup, tag: Text)
    ensures HasGroupTag(groups + [g], tag) <==> HasGroupTag(groups, tag) || g.ownerTag == tag
  {
    assert g in groups + [g];
  }

  lemma TagUnusedByGroups(groups: seq<WriterGroup>, links: Links, tag: Text)
    requires GroupsMatch(groups, links) && FreshTag(links, tag)
    ensures forall g :: g in groups ==> g.ownerTag != tag
  {
  }

  lemma GroupsMatchAddReader(groups: seq<WriterGroup>, links: Links, name: Text, tag: Text)
    requires GroupsMatch(groups, links) && name !in links
    ensures GroupsMatch(groups, links[name := Link(Subscriber, tag)])
  {
    hide Linked, HasGroupTag;
    forall g | g in groups && g.ownerTag != []
      ensures Linked(links[name := Link(Subscriber, tag)], Link(Publisher, g.ownerTag))
    {
      LinkedAfterAdd(links, name, Link(Subscriber, tag), Link(Publisher, g.ownerTag));
    }
  }

  lemma {:induction false} WithoutTagTagsUnique(groups: seq<WriterGroup>, tag: Text)
    requires GroupTagsUnique(groups)
    ensures GroupTagsUnique(WithoutTag(groups, tag))
  {
    if groups == [] {
    } else {
      var rest := WithoutTag(groups[1..], tag);
      WithoutTagTagsUnique(groups[1..], tag);
      WithoutTagContents(groups[1..], tag);
      forall j | 0 <= j < |rest| && groups[0].ownerTag != []
        ensures rest[j].ownerTag != groups[0].ownerTag
      {
        assert rest[j] in groups[1..];
      }
    }
  }

  lemma GroupsMatchRemove(groups: seq<WriterGroup>, links: Links, name: Text)
    requires TagsDistinct(links) && GroupsMatch(groups, links) && name in links
    ensures GroupsMatch(WithoutTag(groups, links[name].tag), links - {name})
  {
    hide WithoutTag, Linked, HasGroupTag, GroupTagsUnique;
    var tag := links[name].tag;
    var after := WithoutTag(groups, tag);
    WithoutTagContents(groups, tag);
    WithoutTagTagsUnique(groups, tag);
    forall g | g in after && g.ownerTag != []
      ensures Linked(links - {name}, Link(Publisher, g.ownerTag))
    {
      LinkedAfterRemove(links, name, Link(Publisher, g.ownerTag));
    }
    forall n | n in links - {name} && links[n].role.Publisher?
      ensures HasGroupTag(after, links[n].tag)
    {
      HasGroupTagAfterRemove(groups, tag, links[n].tag);
    }
  }

  lemma LinkedAfterRemove(links: Links, name: Text, link: Link)
    requires name in links && Linked(links, link) && link.tag != links[name].tag
    ensures Linked(links - {name}, link)
  {
    var n :| n in links && links[n] == link;
    assert n in links - {name};
  }

  lemma HasGroupTagAfterRemove(groups: seq<WriterGroup>, removed: Text, tag: Text)
    requires HasGroupTag(groups, tag) && tag != removed
    ensures HasGroupTag(WithoutTag(groups, removed), tag)
  {
    hide WithoutTag;
    WithoutTagContents(groups, removed);
    var g :| g in groups && g.ownerTag == tag;
    assert g in WithoutTag(groups, removed);
  }

  // ---------------------------------------------------------------- readers

  lemma ReadersMatchAddReader(readers: map<ReaderKey, Reader>, links: Links, name: Text, key: ReaderKey, r: Reader)
    requires ReadersMatch(readers, links) && name !in links && FreshTag(links, r.ownerTag)
    requires key !in readers && r.connection == Some(name)
    ensures ReadersMatch(readers[key := r], links[name := Link(Subscriber, r.ownerTag)])
  {
    hide HasReaderTag;
    var after := links[name := Link(Subscriber, r.ownerTag)];
    forall n | n in after && after[n].role.Subscriber?
      ensures HasReaderTag(readers[key := r], after[n].tag)
    {
      HasReaderTagAfterAdd(readers, key, r, after[n].tag);
    }
  }

  lemma HasReaderTagAfterAdd(readers: map<ReaderKey, Reader>, key: ReaderKey, r: Reader, tag: Text)
    requires key !in readers
    ensures HasReaderTag(readers[key := r], tag) <==> HasReaderTag(readers, tag) || r.ownerTag == tag
  {
    var after := readers[key := r];
    if HasReaderTag(readers, tag) {
      var k :| k in readers && readers[k].ownerTag == tag;
      assert after[k] == readers[k];
    }
    if HasReaderTag(after, tag) {
      var k :| k in after && after[k].ownerTag == tag;
      assert k == key || readers[k] == after[k];
    }
    assert after[key] == r;
  }

  lemma ReadersMatchAddGroup(readers: map<ReaderKey, Reader>, links: Links, name: Text, tag: Text)
    requires ReadersMatch(readers, links) && name !in links
    ensures ReadersMatch(readers, links[name := Link(Publisher, tag)])
  {
    hide HasReaderTag;
  }

  lemma ReadersMatchRemove(readers: map<ReaderKey, Reader>, links: Links, name: Text)
    requires TagsDistinct(links) && ReadersMatch(readers, links) && name in links
    ensures ReadersMatch(ReadersWithoutTag(readers, links[name].tag), links - {name})
  {
    hide HasReaderTag;
    forall n | n in links - {name} && links[n].role.Subscriber?
      ensures HasReaderTag(ReadersWithoutTag(readers, links[name].tag), links[n].tag)
    {
      HasReaderTagAfterRemove(readers, links[name].tag, links[n].tag);
    }
  }

  lemma HasReaderTagAfterRemove(readers: map<ReaderKey, Reader>, removed: Text, tag: Text)
    requires HasReaderTag(readers, tag) && tag != removed
    ensures HasReaderTag(ReadersWithoutTag(readers, removed), tag)
  {
    var k :| k in readers && readers[k].ownerTag == tag;
    assert ReadersWithoutTag(readers, removed)[k] == readers[k];
  }

  lemma ReadersMatchMark(readers: map<ReaderKey, Reader>, links: Links, key: ReaderKey, r: Reader)
    requires ReadersMatch(readers, links) && key in readers
    requires r.ownerTag == readers[key].ownerTag && r.connection == readers[key].connection
    ensures ReadersMatch(readers[key := r], links)
  {
    hide HasReaderTag;
    forall n | n in links && links[n].role.Subscriber?
      ensures HasReaderTag(readers[key := r], links[n].tag)
    {
      HasReaderTagAfterMark(readers, key, r, links[n].tag);
    }
  }

  lemma HasReaderTagAfterMark(readers: map<ReaderKey, Reader>, key: ReaderKey, r: Reader, tag: Text)
    requires HasReaderTag(readers, tag) && key in readers && r.ownerTag == readers[key].ownerTag
    ensures HasReaderTag(readers[key := r], tag)
  {
    var k :| k in readers && readers[k].ownerTag == tag;
    assert readers[key := r][k].ownerTag == tag;
  }

  // ---------------------------------------------------------------- both

  lemma CorrespondsAddGroup(ps: PubSub, links: Links, name: Text, g: WriterGroup)
    requires Corresponds(ps, links) && name !in links && FreshTag(links, g.ownerTag)
    ensures Corresponds(ps.(groups := ps.groups + [g]), links[name := Link(Publisher, g.ownerTag)])
  {
    hide GroupsMatch, ReadersMatch;
    GroupsMatchAddGroup(ps.groups, links, name, g);
    ReadersMatchAddGroup(ps.readers, links, name, g.ownerTag);
  }

  lemma CorrespondsAddReader(ps: PubSub, links: Links, name: Text, key: ReaderKey, r: Reader)
    requires Corresponds(ps, links) && name !in links && FreshTag(links, r.ownerTag)
    requires key !in ps.readers && r.connection == Some(name)
    ensures Corresponds(SetReader(ps, key, r), links[name := Link(Subscriber, r.ownerTag)])
  {
    hide GroupsMatch, ReadersMatch;
    GroupsMatchAddReader(ps.groups, links, name, r.ownerTag);
    ReadersMatchAddReader(ps.readers, links, name, key, r);
  }

  lemma CorrespondsRemove(ps: PubSub, links: Links, name: Text)
    requires Corresponds(ps, links) && name in links && ps.running
    ensures Corresponds(Remove(ps, links[name].tag), links - {name})
  {
    hide GroupsMatch, ReadersMatch, WithoutTag, Usage;
    GroupsMatchRemove(ps.groups, links, name);
    ReadersMatchRemove(ps.readers, links, name);
  }

  /** Data seen and signalled marks play no part. */
  lemma CorrespondsMark(ps: PubSub, links: Links, key: ReaderKey, r: Reader)
    requires Corresponds(ps, links) && key in ps.readers
    requires r.ownerTag == ps.readers[key].ownerTag && r.connection == ps.readers[key].connection
    ensures Corresponds(SetReader(ps, key, r), links)
  {
    hide GroupsMatch, ReadersMatch, TagsDistinct;
    ReadersMatchMark(ps.readers, links, key, r);
  }

  /** Nothing in the containers is under a fresh tag. */
  lemma FreshTagIsUnused(ps: PubSub, links: Links, tag: Text)
    requires Corresponds(ps, links) && FreshTag(links, tag)
    ensures forall i :: 0 <= i < |ps.groups| ==> ps.groups[i].ownerTag != tag
    ensures forall k :: k in ps.readers ==> ps.readers[k].ownerTag != tag
  {
    TagUnusedByGroups(ps.groups, links, tag);
  }
}
