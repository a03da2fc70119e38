/** Three projections of one group's offsets: the lag response, the topic view and the detail rows
    (internal/mcpserver/tools_groups.go; internal/api/handlers_group.go holds the same code for HTTP). */
module GroupLag {
  import opened Wrappers
  import opened Sorting
  import opened Groups
  import Decimal

  // ---------- Specification ----------

  /** The lag of one offset as the lag response and the rows read it. */
  function Attributed(o: Offset): int {
    if o.committed < 0 || o.end < 0 || Delta(o) < 0 then 0 else Delta(o)
  }

  predicate IsKnown(o: Offset) {
    o.committed >= 0 && o.end >= 0
  }

  /** What `f` gives on the offsets of one topic. */
  function SumOn(topic: string, f: Offset -> int, offsets: seq<Offset>): int {
    if offsets == [] then 0
    else
      var before, o := SumOn(topic, f, offsets[..|offsets| - 1]), offsets[|offsets| - 1];
      if o.topic == topic then before + f(o) else before
  }

  function KnownTopics(offsets: seq<Offset>): set<string> {
    set o | o in offsets && IsKnown(o) :: o.topic
  }

  /** The lag response's map of topics. */
  function TopicLags(offsets: seq<Offset>): map<string, int> {
    map topic | topic in KnownTopics(offsets) :: Wrap64(SumOn(topic, Attributed, offsets))
  }

  /** The lag response's partitions of one topic: a later offset of a partition replaces an earlier one. */
  function PartitionLags(offsets: seq<Offset>, topic: string): map<string, int> {
    if offsets == [] then map[]
    else
      var before, o := PartitionLags(offsets[..|offsets| - 1], topic), offsets[|offsets| - 1];
      if o.topic == topic && IsKnown(o) then before[PartitionKey(o.partition) := Attributed(o)] else before
  }

  function AllPartitionLags(offsets: seq<Offset>): map<string, map<string, int>> {
    map topic | topic in KnownTopics(offsets) :: PartitionLags(offsets, topic)
  }

  function PartitionKey(partition: int): string {
    if partition < 0 then "-" + Decimal.Show(-partition) else Decimal.Show(partition)
  }

  /** The lag of a topic's row: absent when nothing was ever committed there. */
  function TopicView(offsets: seq<Offset>, topic: string): Option<int> {
    if exists o :: o in offsets && o.topic == topic && o.committed >= 0
    then Some(Wrap64(SumOn(topic, Behind, offsets)))
    else None
  }

  /** A group seen from a topic: the members that own some of its partitions, one topic, its lag. */
  datatype TopicRow = TopicRow(members: nat, topics: nat, lag: Option<int>)

  predicate Uses(member: Member, topic: string) {
    exists a :: a in member.assignments && a.topic == topic
  }

  /** A member counts once, however many partitions it owns. */
  function Using(members: seq<Member>, topic: string): nat {
    if members == [] then 0
    else Using(members[..|members| - 1], topic) + if Uses(members[|members| - 1], topic) then 1 else 0
  }

  datatype LagResponse = LagResponse(lag: int, topics: map<string, int>, partitions: Option<map<string, map<string,
    int>>>)

  function ResponseOf(group: GroupState, includePartitions: bool): LagResponse {
    LagResponse(Lag(group), TopicLags(group.offsets),
                if includePartitions &&
                  KnownTopics(group.offsets) != {} then Some(AllPartitionLags(group.offsets)) else None)
  }

  datatype Row = Row(topic: string, partition: int, end: Option<int>, current: Option<int>, lag: Option<int>,
                     consumer: Option<string>, host: Option<string>)

  function RowOf(members: seq<Member>, o: Offset): Row {
    Row(o.topic, o.partition,
        if o.end >= 0 then Some(o.end) else None,
        if o.committed >= 0 then Some(o.committed) else None,
        if IsKnown(o) then Some(Attributed(o)) else None,
        match FirstAssigned(members, o.topic, o.partition) case Some(i) => Some(members[i].id) case None => None,
        match FirstAssigned(members, o.topic, o.partition) case Some(i) => HostOf(members[i]) case None => None)
  }

  function HostOf(member: Member): Option<string> {
    if member.host == "" then None else Some(member.host)
  }

  predicate IsAssigned(member: Member, topic: string, partition: int) {
    exists a :: a in member.assignments && a.topic == topic && partition in a.partitions
  }

  function FirstAssigned(members: seq<Member>, topic: string, partition: int): (found: Option<nat>)
    ensures found.Some? ==> found.value < |members| && IsAssigned(members[found.value], topic, partition)
    ensures forall i :: 0 <= i < (if found.Some? then found.value else |members|) ==>
      !IsAssigned(members[i], topic, partition)
  {
    if members == [] then None
    else
      var before := FirstAssigned(members[..|members| - 1], topic, partition);
      if before.Some? then before
      else if IsAssigned(members[|members| - 1], topic, partition) then Some(|members| - 1)
      else None
  }

  /** Details list offsets by topic, then partition. */
  function ComesBefore(a: Offset, b: Offset): bool {
    if a.topic != b.topic then Compare(a.topic, b.topic) < 0 else a.partition < b.partition
  }

  function RowsOf(members: seq<Member>, offsets: seq<Offset>): seq<Row> {
    if offsets == [] then []
    else RowsOf(members, offsets[..|offsets| - 1]) + [RowOf(members, offsets[|offsets| - 1])]
  }

  function RowLag(row: Row): int {
    row.lag.GetOr(0)
  }

  function RowSum(rows: seq<Row>): int {
    if rows == [] then 0 else RowSum(rows[..|rows| - 1]) + RowLag(rows[|rows| - 1])
  }

  // ---------- One more offset ----------

  lemma {:induction false} NothingKnown(s: seq<Offset>, topic: string)
    requires topic !in KnownTopics(s)
    ensures SumOn(topic, Attributed, s) == 0 && PartitionLags(s, topic) == map[]
  {
    if s != [] {
      var front, o := s[..|s| - 1], s[|s| - 1];
      assert s == front + [o] && o in s;
      assert forall x :: x in front ==> x in s;
      NothingKnown(front, topic);
    }
  }

  lemma SumOnGrows(topic: string, f: Offset -> int, s: seq<Offset>, o: Offset)
    ensures Wrap64(SumOn(topic, f, s + [o])) ==
      if o.topic == topic then Wrap64(Wrap64(SumOn(topic, f, s)) + f(o)) else Wrap64(SumOn(topic, f, s))
  {
    assert (s + [o])[..|s|] == s;
    WrapAdds(SumOn(topic, f, s), f(o));
  }

  lemma KnownTopicsGrow(s: seq<Offset>, o: Offset)
    ensures KnownTopics(s + [o]) == KnownTopics(s) + (if IsKnown(o) then {o.topic} else {})
  {
    var t := s + [o];
    forall topic
      ensures topic in KnownTopics(t) <==> topic in KnownTopics(s) || (IsKnown(o) && topic == o.topic)
    {
      if topic in KnownTopics(s) {
        var x :| x in s && IsKnown(x) && x.topic == topic;
        assert x in t;
      }
    }
  }

  function AddTopicLag(topics: map<string, int>, o: Offset): map<string, int> {
    if !IsKnown(o) then topics
    else topics[o.topic := Wrap64((if o.topic in topics then topics[o.topic] else 0) + Attributed(o))]
  }

  function AddPartitionLag(byTopic: map<string, map<string, int>>, o: Offset): map<string, map<string, int>> {
    if !IsKnown(o) then byTopic
    else
      var partitions := if o.topic in byTopic then byTopic[o.topic] else map[];
      byTopic[o.topic := partitions[PartitionKey(o.partition) := Attributed(o)]]
  }

  lemma TopicLagGrows(topic: string, s: seq<Offset>, o: Offset)
    ensures var before, after := Wrap64(SumOn(topic, Attributed, s)), Wrap64(SumOn(topic, Attributed, s + [o]));
      (topic !in KnownTopics(s) ==> before == 0) &&
      after == if IsKnown(o) && o.topic == topic then Wrap64(before + Attributed(o)) else before
  {
    if topic !in KnownTopics(s) {
      NothingKnown(s, topic);
    }
    SumOnGrows(topic, Attributed, s, o);
    WrapAdds(SumOn(topic, Attributed, s), 0);
  }

  lemma OneMoreTopicLag(s: seq<Offset>, o: Offset)
    ensures TopicLags(s + [o]) == AddTopicLag(TopicLags(s), o)
  {
    KnownTopicsGrow(s, o);
    forall topic | topic in KnownTopics(s + [o])
      ensures TopicLags(s + [o])[topic] == AddTopicLag(TopicLags(s), o)[topic]
    {
      TopicLagGrows(topic, s, o);
    }
  }

  lemma OneMorePartitionLag(s: seq<Offset>, o: Offset)
    ensures AllPartitionLags(s + [o]) == AddPartitionLag(AllPartitionLags(s), o)
  {
    var t, before := s + [o], AllPartitionLags(s);
    KnownTopicsGrow(s, o);
    assert t[..|s|] == s;
    if o.topic !in KnownTopics(s) {
      NothingKnown(s, o.topic);
    }
    forall topic | topic in KnownTopics(t)
      ensures AllPartitionLags(t)[topic] == AddPartitionLag(before, o)[topic]
    {
      if topic != o.topic {
        assert PartitionLags(t, topic) == PartitionLags(s, topic);
      }
    }
  }

  /** The two maps after the offsets `s`. */
  ghost predicate Projected(s: seq<Offset>, topics: map<string, int>, byTopic: map<string, map<string, int>>) {
    (forall x {:trigger TopicLags(x)} :: x == s ==> topics == TopicLags(x)) &&
    (forall x {:trigger AllPartitionLags(x)} :: x == s ==> byTopic == AllPartitionLags(x))
  }

  lemma OneMore(s: seq<Offset>, o: Offset, topics: map<string, int>, byTopic: map<string, map<string, int>>)
    requires Projected(s, topics, byTopic)
    ensures Projected(s + [o], AddTopicLag(topics, o), AddPartitionLag(byTopic, o))
  {
    OneMoreTopicLag(s, o);
    OneMorePartitionLag(s, o);
  }

  lemma Finally(s: seq<Offset>, topics: map<string, int>, byTopic: map<string, map<string, int>>)
    requires Projected(s, topics, byTopic)
    ensures topics == TopicLags(s) && byTopic == AllPartitionLags(s) && (byTopic == map[] <==> KnownTopics(s) == {})
  {
    assert AllPartitionLags(s).Keys == KnownTopics(s);
  }

  // ---------- The code ----------

  method LagOf(group: GroupState) returns (lag: int)
    ensures lag == Lag(group)
  {
    var offsets := group.offsets;
    lag := 0;
    for i := 0 to |offsets|
      invariant lag == Wrap64(SumOf(Behind, offsets[..i]))
    {
      var o := offsets[i];
      assert offsets[..i + 1][..i] == offsets[..i];
      WrapAdds(SumOf(Behind, offsets[..i]), Behind(o));
      if o.committed < 0 {
        continue;
      }
      var delta := Wrap64(o.end - o.committed);
      if delta > 0 {
        lag := Wrap64(lag + delta);
      }
    }
    assert offsets[..|offsets|] == offsets;
  }

  /** The group as a row of a topic. */
  method TopicConsumerGroup(group: GroupState, topic: string) returns (row: TopicRow)
    ensures row == TopicRow(Using(group.members, topic), 1, TopicView(group.offsets, topic))
  {
    var members := CountUsing(group.members, topic);
    var lag := TopicLag(group, topic);
    row := TopicRow(members, 1, lag);
  }

  method CountUsing(members: seq<Member>, topic: string) returns (count: nat)
    ensures count == Using(members, topic)
  {
    count := 0;
    for i := 0 to |members|
      invariant count == Using(members[..i], topic)
    {
      assert members[..i + 1][..i] == members[..i];
      var uses := UsesTopic(members[i], topic);
      if uses {
        count := count + 1;
      }
    }
    assert members[..|members|] == members;
  }

  method UsesTopic(member: Member, topic: string) returns (uses: bool)
    ensures uses <==> Uses(member, topic)
  {
    for j := 0 to |member.assignments|
      invariant forall k :: 0 <= k < j ==> member.assignments[k].topic != topic
    {
      if member.assignments[j].topic == topic {
        return true;
      }
    }
    return false;
  }

  method TopicLag(group: GroupState, topic: string) returns (lag: Option<int>)
    ensures lag == TopicView(group.offsets, topic)
  {
    var offsets := group.offsets;
    var sum, known := 0, false;
    for i := 0 to |offsets|
      invariant sum == Wrap64(SumOn(topic, Behind, offsets[..i]))
      invariant known <==> exists o :: o in offsets[..i] && o.topic == topic && o.committed >= 0
    {
      var o := offsets[i];
      assert offsets[..i + 1] == offsets[..i] + [o];
      SumOnGrows(topic, Behind, offsets[..i], o);
      WrapAdds(SumOn(topic, Behind, offsets[..i]), 0);
      if o.topic != topic || o.committed < 0 {
        continue;
      }
      known := true;
      var delta := Wrap64(o.end - o.committed);
      if delta > 0 {
        sum := Wrap64(sum + delta);
      }
    }
    assert offsets[..|offsets|] == offsets;
    lag := if known then Some(sum) else None;
  }

  /** An offset whose commit and end are known adds to its topic and sets its partition. */
  method AddLag(o: Offset, topics0: map<string, int>, byTopic0: map<string, map<string, int>>, includePartitions: bool)
    returns (topics: map<string, int>, byTopic: map<string, map<string, int>>)
    ensures topics == AddTopicLag(topics0, o)
    ensures byTopic == if includePartitions then AddPartitionLag(byTopic0, o) else byTopic0
  {
    topics, byTopic := topics0, byTopic0;
    if o.committed < 0 || o.end < 0 {
      return;
    }
    var lag := Wrap64(o.end - o.committed);
    if lag < 0 {
      lag := 0;
    }
    topics := topics[o.topic := Wrap64((if o.topic in topics then topics[o.topic] else 0) + lag)];
    if includePartitions {
      var partitions := if o.topic in byTopic then byTopic[o.topic] else map[];
      byTopic := byTopic[o.topic := partitions[PartitionKey(o.partition) := lag]];
    }
  }

  method ConsumerGroupLag(group: GroupState, includePartitions: bool) returns (response: LagResponse)
    ensures response == ResponseOf(group, includePartitions)
  {
    var offsets := group.offsets;
    var topics: map<string, int> := map[];
    var byTopic: map<string, map<string, int>> := map[];
    ghost var full: map<string, map<string, int>> := map[];
    for i := 0 to |offsets|
      invariant Projected(offsets[..i], topics, full)
      invariant includePartitions ==> byTopic == full
      invariant !includePartitions ==> byTopic == map[]
    {
      var o := offsets[i];
      assert Projected(offsets[..i + 1], AddTopicLag(topics, o), AddPartitionLag(full, o)) by {
        OneMore(offsets[..i], o, topics, full);
        assert offsets[..i + 1] == offsets[..i] + [o];
      }
      full := AddPartitionLag(full, o);
      topics, byTopic := AddLag(o, topics, byTopic, includePartitions);
    }
    assert offsets[..|offsets|] == offsets;
    var total := LagOf(group);
    Finally(offsets, topics, full);
    response := LagResponse(total, topics, if includePartitions && byTopic != map[] then Some(byTopic) else None);
  }

  method MemberFor(members: seq<Member>, topic: string, partition: int) returns (found: Option<nat>)
    ensures found == FirstAssigned(members, topic, partition)
  {
    for i := 0 to |members|
      invariant forall k :: 0 <= k < i ==> !IsAssigned(members[k], topic, partition)
    {
      var assignments := members[i].assignments;
      for j := 0 to |assignments|
        invariant forall k :: 0 <= k < j ==> assignments[k].topic != topic || partition !in assignments[k].partitions
      {
        if assignments[j].topic != topic {
          continue;
        }
        var partitions := assignments[j].partitions;
        for k := 0 to |partitions|
          invariant partition !in partitions[..k]
        {
          if partitions[k] == partition {
            FirstIsUnique(members, topic, partition, i);
            return Some(i);
          }
        }
      }
    }
    var first := FirstAssigned(members, topic, partition);
    return None;
  }

  lemma FirstIsUnique(members: seq<Member>, topic: string, partition: int, i: nat)
    requires i < |members| && IsAssigned(members[i], topic, partition)
    requires forall k :: 0 <= k < i ==> !IsAssigned(members[k], topic, partition)
    ensures FirstAssigned(members, topic, partition) == Some(i)
  {
    var first := FirstAssigned(members, topic, partition);
    assert first.Some?;
  }

  predicate FirstOwner(members: seq<Member>, i: nat, topic: string, partition: int)
    requires i < |members|
  {
    IsAssigned(members[i], topic, partition) && forall k :: 0 <= k < i ==> !IsAssigned(members[k], topic, partition)
  }

  method ConsumerGroupPartition(members: seq<Member>, o: Offset) returns (row: Row)
    ensures row == RowOf(members, o)
    ensures row.topic == o.topic && row.partition == o.partition
    ensures row.end == if o.end >= 0 then Some(o.end) else None
    ensures row.current == if o.committed >= 0 then Some(o.committed) else None
    ensures row.lag.Some? <==> o.end >= 0 && o.committed >= 0
    ensures 0 <= o.committed <= o.end && IsInt64(o.end) ==> row.lag == Some(o.end - o.committed)
    ensures 0 <= o.end <= o.committed && IsInt64(o.committed) ==> row.lag == Some(0)
    ensures forall i :: 0 <= i < |members| && FirstOwner(members, i, o.topic, o.partition) ==>
                && row.consumer == Some(members[i].id)
                && row.host == if members[i].host == "" then None else Some(members[i].host)
    ensures (forall i :: 0 <= i < |members| ==> !IsAssigned(members[i], o.topic, o.partition)) ==>
              row.consumer == None && row.host == None
  {
    row := Row(o.topic, o.partition, None, None, None, None, None);
    if o.end >= 0 {
      row := row.(end := Some(o.end));
    }
    if o.committed >= 0 {
      row := row.(current := Some(o.committed));
      if o.end >= 0 {
        var lag := Wrap64(o.end - o.committed);
        if lag < 0 {
          lag := 0;
        }
        row := row.(lag := Some(lag));
      }
    }
    var member := MemberFor(members, o.topic, o.partition);
    if member.Some? {
      row := row.(consumer := Some(members[member.value].id));
      if members[member.value].host != "" {
        row := row.(host := Some(members[member.value].host));
      }
    }
  }

  method ConsumerGroupDetails(group: GroupState) returns (rows: seq<Row>)
    ensures rows == RowsOf(group.members, Sort(ComesBefore, group.offsets))
  {
    var offsets := Sort(ComesBefore, group.offsets);
    rows := [];
    for i := 0 to |offsets|
      invariant rows == RowsOf(group.members, offsets[..i])
    {
      var row := ConsumerGroupPartition(group.members, offsets[i]);
      assert offsets[..i + 1][..i] == offsets[..i];
      rows := rows + [row];
    }
    assert offsets[..|offsets|] == offsets;
  }

  // ---------- Conservation ----------

  /** The documented range of the offsets a broker reports: -1 or a 64-bit position. */
  predicate InRange(offsets: seq<Offset>) {
    forall o :: o in offsets ==> -1 <= o.committed && IsInt64(o.committed) && -1 <= o.end && IsInt64(o.end)
  }

  predicate DistinctPartitions(offsets: seq<Offset>) {
    forall i, j :: 0 <= i < j < |offsets| ==>
      offsets[i].topic != offsets[j].topic || offsets[i].partition != offsets[j].partition
  }

  ghost function MapSum(m: map<string, int>): int {
    if m == map[] then 0
    else
      var k :| k in m;
      m[k] + MapSum(m - {k})
  }

  lemma {:induction false} MapSumRemove(m: map<string, int>, k: string)
    requires k in m
    ensures MapSum(m) == m[k] + MapSum(m - {k})
    decreases |m|
  {
    var c :| c in m && MapSum(m) == m[c] + MapSum(m - {c});
    if c != k {
      MapSumRemove(m - {c}, k);
      MapSumRemove(m - {k}, c);
      assert m - {c} - {k} == m - {k} - {c};
    }
  }

  lemma MapSumPut(m: map<string, int>, k: string, v: int)
    ensures MapSum(m[k := v]) == MapSum(m) - (if k in m then m[k] else 0) + v
  {
    MapSumRemove(m[k := v], k);
    assert m[k := v] - {k} == m - {k};
    if k in m {
      MapSumRemove(m, k);
    } else {
      assert m - {k} == m;
    }
  }

  /** The readings of an offset differ exactly where an unknown end is so far below the commit that the
      subtraction wraps around. */
  lemma ReadingsAgree(o: Offset)
    requires IsInt64(o.committed) && IsInt64(o.end)
    ensures Behind(o) == Attributed(o) <==>
      !(o.committed >= 0 && o.end < 0 && o.end - o.committed < -0x8000_0000_0000_0000)
  {
    assert Wrap64(o.end - o.committed) == if o.end - o.committed < -0x8000_0000_0000_0000
      then o.end - o.committed + 0x1_0000_0000_0000_0000 else Wrap64(o.end - o.committed);
  }

  lemma {:induction false} SumsAgree(offsets: seq<Offset>, topic: string)
    requires InRange(offsets)
    ensures SumOf(Behind, offsets) == SumOf(Attributed, offsets)
    ensures SumOn(topic, Behind, offsets) == SumOn(topic, Attributed, offsets)
  {
    if offsets != [] {
      var front, o := offsets[..|offsets| - 1], offsets[|offsets| - 1];
      assert o in offsets && forall x :: x in front ==> x in offsets;
      SumsAgree(front, topic);
      ReadingsAgree(o);
    }
  }

  /** Per topic, the lag response and the topic view say the same; a topic missing from the response has no lag. */
  lemma TopicViewAgrees(offsets: seq<Offset>, topic: string)
    requires InRange(offsets)
    ensures topic in TopicLags(offsets) ==> TopicView(offsets, topic) == Some(TopicLags(offsets)[topic])
    ensures topic !in TopicLags(offsets) ==> TopicView(offsets, topic).GetOr(0) == 0
  {
    SumsAgree(offsets, topic);
    if topic in TopicLags(offsets) {
      var o :| o in offsets && IsKnown(o) && o.topic == topic;
    } else {
      NothingKnown(offsets, topic);
    }
  }

  /** Adding up the topics of the response gives its total. */
  lemma {:induction false} TopicsSumToTotal(offsets: seq<Offset>)
    ensures Wrap64(MapSum(TopicLags(offsets))) == Wrap64(SumOf(Attributed, offsets))
  {
    if offsets == [] {
      assert TopicLags(offsets) == map[];
    } else {
      var front, o := offsets[..|offsets| - 1], offsets[|offsets| - 1];
      assert offsets == front + [o];
      TopicsSumToTotal(front);
      OneMoreTopicLag(front, o);
      TotalGrows(TopicLags(front), o, SumOf(Attributed, front));
    }
  }

  lemma TotalGrows(topics: map<string, int>, o: Offset, total: int)
    requires Wrap64(MapSum(topics)) == Wrap64(total)
    ensures Wrap64(MapSum(AddTopicLag(topics, o))) == Wrap64(total + Attributed(o))
  {
    if IsKnown(o) {
      var was := if o.topic in topics then topics[o.topic] else 0;
      MapSumPut(topics, o.topic, Wrap64(was + Attributed(o)));
      WrapAdds(was + Attributed(o), MapSum(topics) - was);
      WrapAdds(MapSum(topics), Attributed(o));
      WrapAdds(total, Attributed(o));
    }
  }

  lemma PartitionKeyInjective(a: int, b: int)
    requires PartitionKey(a) == PartitionKey(b)
    ensures a == b
  {
    assert PartitionKey(a)[0] == '-' <==> a < 0;
    assert PartitionKey(b)[0] == '-' <==> b < 0;
    if a < 0 {
      assert PartitionKey(a)[1..] == Decimal.Show(-a) && PartitionKey(b)[1..] == Decimal.Show(-b);
      Decimal.ShowInjective(-a, -b);
    } else {
      Decimal.ShowInjective(a, b);
    }
  }

  /** Adding up the partitions of a topic gives the topic's lag. */
  lemma {:induction false} PartitionsSumToTopic(offsets: seq<Offset>, topic: string)
    requires DistinctPartitions(offsets)
    ensures MapSum(PartitionLags(offsets, topic)) == SumOn(topic, Attributed, offsets)
    ensures forall key :: key in PartitionLags(offsets, topic) ==>
      exists i :: 0 <= i < |offsets| && offsets[i].topic == topic && PartitionKey(offsets[i].partition) == key
  {
    if offsets != [] {
      var front, o := offsets[..|offsets| - 1], offsets[|offsets| - 1];
      PartitionsSumToTopic(front, topic);
      var before, key := PartitionLags(front, topic), PartitionKey(o.partition);
      forall i | 0 <= i < |front| && front[i].topic == topic == o.topic
        ensures PartitionKey(front[i].partition) != key
      {
        assert offsets[i].partition != o.partition;
        if PartitionKey(front[i].partition) == key {
          PartitionKeyInjective(front[i].partition, o.partition);
        }
      }
      MapSumPut(before, key, Attributed(o));
      forall k | k in PartitionLags(offsets, topic)
        ensures exists i :: 0 <= i < |offsets| && offsets[i].topic == topic && PartitionKey(offsets[i].partition) == k
      {
        if k in before {
          var i :| 0 <= i < |front| && front[i].topic == topic && PartitionKey(front[i].partition) == k;
          assert offsets[i].topic == topic && PartitionKey(offsets[i].partition) == k;
        } else {
          assert offsets[|offsets| - 1].topic == topic && PartitionKey(offsets[|offsets| - 1].partition) == k;
        }
      }
    }
  }

  /** The order of the offsets does not change a sum. */
  lemma {:induction false} SumPermutes(f: Offset -> int, s: seq<Offset>, t: seq<Offset>)
    requires multiset(s) == multiset(t)
    ensures SumOf(f, s) == SumOf(f, t)
    decreases |s|
  {
    SameLength(s, t);
    if s != [] {
      var x, front := s[|s| - 1], s[..|s| - 1];
      assert s == front + [x];
      var a, b := Around(t, front, x);
      SumDrops(f, a, x, b);
      SumPermutes(f, front, a + b);
    }
  }

  /** One occurrence taken out of a permutation. */
  lemma Around(t: seq<Offset>, front: seq<Offset>, x: Offset) returns (a: seq<Offset>, b: seq<Offset>)
    requires multiset(front + [x]) == multiset(t)
    ensures t == a + [x] + b && multiset(front) == multiset(a + b)
  {
    assert x in multiset(front + [x]);
    var i :| 0 <= i < |t| && t[i] == x;
    a, b := t[..i], t[i + 1..];
    assert t == a + [x] + b;
    DropOne(front, a, x, b);
  }

  lemma DropOne<T>(s: seq<T>, a: seq<T>, x: T, b: seq<T>)
    requires multiset(s + [x]) == multiset(a + [x] + b)
    ensures multiset(s) == multiset(a + b)
  {
    assert multiset(s) == multiset(s + [x]) - multiset{x};
    assert multiset(a + b) == multiset(a + [x] + b) - multiset{x};
  }

  lemma {:induction false} SumDrops(f: Offset -> int, a: seq<Offset>, x: Offset, b: seq<Offset>)
    ensures SumOf(f, a + [x] + b) == SumOf(f, a + b) + f(x)
  {
    if b == [] {
      assert a + [x] + b == a + [x] && a + b == a && (a + [x])[..|a|] == a;
    } else {
      var front, last := b[..|b| - 1], b[|b| - 1];
      assert (a + [x] + b)[..|a| + |b|] == a + [x] + front && (a + b)[..|a| + |front|] == a + front;
      SumDrops(f, a, x, front);
    }
  }

  lemma {:induction false} RowsSum(members: seq<Member>, offsets: seq<Offset>)
    ensures RowSum(RowsOf(members, offsets)) == SumOf(Attributed, offsets)
  {
    if offsets != [] {
      var front, o := offsets[..|offsets| - 1], offsets[|offsets| - 1];
      RowsSum(members, front);
      var rows := RowsOf(members, offsets);
      assert rows[..|rows| - 1] == RowsOf(members, front) && rows[|rows| - 1] == RowOf(members, o);
    }
  }

  /** The three projections of one group conserve its lag: added up in 64-bit arithmetic the topics, and the detail
      rows, give the total, and (for distinct partitions) the partitions of a topic give the topic; per topic the
      response agrees with the topic view. */
  lemma LagIsConserved(group: GroupState)
    requires InRange(group.offsets)
    ensures var response := ResponseOf(group, true);
      Wrap64(MapSum(response.topics)) == response.lag &&
      Wrap64(RowSum(RowsOf(group.members, Sort(ComesBefore, group.offsets)))) == response.lag &&
      Wrap64(RowSum(RowsOf(group.members, group.offsets))) == response.lag &&
      (forall topic ::
        TopicView(group.offsets, topic).GetOr(0) == if topic in response.topics then response.topics[topic] else 0) &&
      (response.partitions.None? <==> response.topics == map[]) &&
      (response.partitions.Some? ==> response.partitions.value.Keys == response.topics.Keys) &&
      (DistinctPartitions(group.offsets) && response.partitions.Some? ==>
        forall topic :: topic in response.topics ==>
          Wrap64(MapSum(response.partitions.value[topic])) == response.topics[topic])
  {
    var offsets := group.offsets;
    SumsAgree(offsets, "");
    TopicsSumToTotal(offsets);
    SortPermutes(ComesBefore, offsets);
    SumPermutes(Attributed, Sort(ComesBefore, offsets), offsets);
    RowsSum(group.members, Sort(ComesBefore, offsets));
    RowsSum(group.members, offsets);
    assert TopicLags(offsets).Keys == KnownTopics(offsets);
    forall topic
      ensures TopicView(offsets, topic).GetOr(0) == if topic in TopicLags(offsets) then TopicLags(offsets)[topic] else 0
      ensures DistinctPartitions(offsets) && topic in KnownTopics(offsets) ==>
        Wrap64(MapSum(PartitionLags(offsets, topic))) == TopicLags(offsets)[topic]
    {
      TopicViewAgrees(offsets, topic);
      if DistinctPartitions(offsets) {
        PartitionsSumToTopic(offsets, topic);
      }
    }
  }

  /** Nothing wraps when the sum fits: then the total is the sum of the topics as it stands. */
  lemma ExactWhenItFits(offsets: seq<Offset>)
    requires InRange(offsets) && IsInt64(SumOf(Behind, offsets))
    ensures Wrap64(SumOf(Behind, offsets)) == SumOf(Behind, offsets) == MapSum(TopicLags(offsets))
  {
    SumsAgree(offsets, "");
    ExactTopics(offsets);
  }

  lemma {:induction false} ExactTopics(offsets: seq<Offset>)
    requires IsInt64(SumOf(Attributed, offsets))
    ensures 0 <= SumOf(Attributed, offsets) == MapSum(TopicLags(offsets))
    ensures forall topic :: topic in TopicLags(offsets) ==> 0 <= TopicLags(offsets)[topic] <= SumOf(Attributed, offsets)
  {
    if offsets == [] {
      assert TopicLags(offsets) == map[];
    } else {
      var front, o := offsets[..|offsets| - 1], offsets[|offsets| - 1];
      assert offsets == front + [o];
      NotNegative(front);
      ExactTopics(front);
      OneMoreTopicLag(front, o);
      ExactStep(TopicLags(front), o, SumOf(Attributed, front));
    }
  }

  lemma ExactStep(topics: map<string, int>, o: Offset, sum: int)
    requires 0 <= sum == MapSum(topics) && IsInt64(sum + Attributed(o))
    requires forall topic :: topic in topics ==> 0 <= topics[topic] <= sum
    ensures MapSum(AddTopicLag(topics, o)) == sum + Attributed(o)
    ensures forall topic :: topic in AddTopicLag(topics, o) ==>
      0 <= AddTopicLag(topics, o)[topic] <= sum + Attributed(o)
  {
    var was := if o.topic in topics then topics[o.topic] else 0;
    MapSumPut(topics, o.topic, was + Attributed(o));
  }

  lemma {:induction false} NotNegative(offsets: seq<Offset>)
    ensures SumOf(Attributed, offsets) >= 0
  {
    if offsets != [] {
      NotNegative(offsets[..|offsets| - 1]);
    }
  }

  /** The detail rows are listed by topic, then partition. */
  lemma RowsInOrder(offsets: seq<Offset>)
    ensures Ordered(ComesBefore, Sort(ComesBefore, offsets))
    ensures multiset(Sort(ComesBefore, offsets)) == multiset(offsets)
  {
    forall a, b | ComesBefore(a, b)
      ensures !ComesBefore(b, a)
    {
      CompareIsTotal(a.topic, b.topic);
    }
    forall a, b, c | !ComesBefore(a, b) && !ComesBefore(b, c)
      ensures !ComesBefore(a, c)
    {
      CompareIsTotal(a.topic, b.topic);
      CompareIsTotal(b.topic, c.topic);
      CompareIsTotal(a.topic, c.topic);
      CompareIsTransitive(c.topic, b.topic, a.topic);
    }
    SortOrders(ComesBefore, offsets);
    SortPermutes(ComesBefore, offsets);
  }

  /** A row that names a consumer belongs to a topic that some member is counted for. */
  lemma {:induction false} ConsumersAreCounted(members: seq<Member>, o: Offset)
    requires RowOf(members, o).consumer.Some?
    ensures Using(members, o.topic) > 0
  {
    var i := FirstAssigned(members, o.topic, o.partition).value;
    UserCounts(members, o.topic, i);
  }

  lemma {:induction false} UserCounts(members: seq<Member>, topic: string, i: nat)
    requires i < |members| && Uses(members[i], topic)
    ensures Using(members, topic) > 0
  {
    if i < |members| - 1 {
      UserCounts(members[..|members| - 1], topic, i);
    }
  }
}
