/** A consumer group as a broker describes it, and the order in which groups are listed. */
module Groups {
  import opened Sorting

  datatype Assignment = Assignment(topic: string, partitions: seq<int>)

  datatype Member = Member(id: string, host: string, assignments: seq<Assignment>)

  /** A committed offset (negative: no commit) and the end of its partition (negative: unknown). */
  datatype Offset = Offset(topic: string, partition: int, committed: int, end: int)

  datatype GroupState = GroupState(id: string, state: string, members: seq<Member>, offsets: seq<Offset>)

  // ---------- 64-bit arithmetic ----------

  predicate IsInt64(n: int) {
    -0x8000_0000_0000_0000 <= n < 0x8000_0000_0000_0000
  }

  /** What Go's int64 arithmetic makes of a result. */
  function Wrap64(n: int): (w: int)
    ensures IsInt64(w) && (IsInt64(n) ==> w == n)
    decreases if n < 0 then -n else n + 1
  {
    if n < -0x8000_0000_0000_0000 then Wrap64(n + 0x1_0000_0000_0000_0000)
    else if n >= 0x8000_0000_0000_0000 then Wrap64(n - 0x1_0000_0000_0000_0000)
    else n
  }

  /** Wrapping at every addition is wrapping once. */
  lemma {:induction false} WrapAdds(a: int, b: int)
    ensures Wrap64(Wrap64(a) + b) == Wrap64(a + b)
    decreases if a < 0 then -a else a + 1
  {
    if a < -0x8000_0000_0000_0000 {
      WrapAdds(a + 0x1_0000_0000_0000_0000, b);
      OneTurn(a + b);
    } else if a >= 0x8000_0000_0000_0000 {
      WrapAdds(a - 0x1_0000_0000_0000_0000, b);
      OneTurn(a + b - 0x1_0000_0000_0000_0000);
    }
  }

  lemma {:induction false} OneTurn(n: int)
    ensures Wrap64(n) == Wrap64(n + 0x1_0000_0000_0000_0000)
    decreases if n < 0 then -n else n + 1
  {
    if n < -0x1_8000_0000_0000_0000 {
      OneTurn(n + 0x1_0000_0000_0000_0000);
    }
  }

  // ---------- Lag ----------

  function Delta(o: Offset): int {
    Wrap64(o.end - o.committed)
  }

  /** The lag of one offset as the group total and the topic view read it. */
  function Behind(o: Offset): int {
    if o.committed < 0 || Delta(o) < 0 then 0 else Delta(o)
  }

  function SumOf(f: Offset -> int, offsets: seq<Offset>): int {
    if offsets == [] then 0 else SumOf(f, offsets[..|offsets| - 1]) + f(offsets[|offsets| - 1])
  }

  /** `GroupState.Lag`. */
  function Lag(g: GroupState): int {
    Wrap64(SumOf(Behind, g.offsets))
  }

  /** `GroupState.TopicCount`. */
  function TopicCount(g: GroupState): nat {
    |set o | o in g.offsets :: o.topic|
  }

  // ---------- The order of a listing ----------

  datatype Ordering = ByMembers | ByState | ByMessagesBehind | ByTopicCount | ByName

  datatype Query = Query(orderBy: Ordering, descending: bool)

  function CompareInts(a: int, b: int): int {
    if a < b then -1 else if a > b then 1 else 0
  }

  function Primary(ordering: Ordering, a: GroupState, b: GroupState): int {
    match ordering
    case ByMembers => CompareInts(|a.members|, |b.members|)
    case ByState => Compare(a.state, b.state)
    case ByMessagesBehind => CompareInts(Lag(a), Lag(b))
    case ByTopicCount => CompareInts(TopicCount(a), TopicCount(b))
    case ByName => Compare(a.id, b.id)
  }

  /** The comparison: the direction concerns the primary value, ties go by ascending name. */
  function Comes(query: Query, a: GroupState, b: GroupState): bool {
    var c := Primary(query.orderBy, a, b);
    if c == 0 then Compare(a.id, b.id) < 0 else if query.descending then c > 0 else c < 0
  }

  function Less(query: Query): (GroupState, GroupState) -> bool {
    (a, b) => Comes(query, a, b)
  }

  lemma PrimaryIsAPreorder(ordering: Ordering, a: GroupState, b: GroupState, c: GroupState)
    ensures Primary(ordering, a, b) == -Primary(ordering, b, a)
    ensures Primary(ordering, a, b) <= 0 && Primary(ordering, b, c) <= 0 ==> Primary(ordering, a, c) <= 0
  {
    CompareIsTotal(a.state, b.state);
    CompareIsTotal(a.id, b.id);
    if Compare(a.state, b.state) <= 0 && Compare(b.state, c.state) <= 0 {
      CompareIsTransitive(a.state, b.state, c.state);
    }
    if Compare(a.id, b.id) <= 0 && Compare(b.id, c.id) <= 0 {
      CompareIsTransitive(a.id, b.id, c.id);
    }
  }

  lemma ComesIsAsymmetric(query: Query, a: GroupState, b: GroupState)
    ensures Comes(query, a, b) ==> !Comes(query, b, a)
    ensures a.id != b.id ==> Comes(query, a, b) || Comes(query, b, a)
  {
    PrimaryIsAPreorder(query.orderBy, a, b, a);
    CompareIsTotal(a.id, b.id);
  }

  lemma ComesIsTransitive(query: Query, a: GroupState, b: GroupState, c: GroupState)
    requires !Comes(query, a, b) && !Comes(query, b, c)
    ensures !Comes(query, a, c)
  {
    var ordering := query.orderBy;
    PrimaryIsAPreorder(ordering, a, b, c);
    PrimaryIsAPreorder(ordering, c, b, a);
    PrimaryIsAPreorder(ordering, b, c, a);
    PrimaryIsAPreorder(ordering, b, a, c);
    PrimaryIsAPreorder(ordering, c, a, b);
    PrimaryIsAPreorder(ordering, a, c, b);
    CompareIsTotal(a.id, b.id);
    CompareIsTotal(b.id, c.id);
    CompareIsTotal(a.id, c.id);
    if Compare(c.id, b.id) <= 0 && Compare(b.id, a.id) <= 0 {
      CompareIsTransitive(c.id, b.id, a.id);
    }
  }

  /** Every ordering, in both directions, is a strict weak order that leaves no two names equivalent. */
  lemma LessIsAnOrder(query: Query)
    ensures Order(Less(query))
    ensures forall a: GroupState, b: GroupState :: a.id != b.id ==> Less(query)(a, b) || Less(query)(b, a)
  {
    forall a, b
      ensures Less(query)(a, b) ==> !Less(query)(b, a)
      ensures a.id != b.id ==> Less(query)(a, b) || Less(query)(b, a)
    {
      ComesIsAsymmetric(query, a, b);
    }
    forall a, b, c | !Less(query)(a, b) && !Less(query)(b, c)
      ensures !Less(query)(a, c)
    {
      ComesIsTransitive(query, a, b, c);
    }
  }

  // ---------- What a listing looks like ----------

  /** The offsets behind, one by one. */
  function TotalBehind(offsets: seq<Offset>): int {
    if offsets == [] then 0
    else
      var last := offsets[|offsets| - 1];
      var lag := Wrap64(last.end - last.committed);
      TotalBehind(offsets[..|offsets| - 1]) + if last.committed >= 0 && lag > 0 then lag else 0
  }

  lemma {:induction false} BehindAddsUp(offsets: seq<Offset>)
    ensures SumOf(Behind, offsets) == TotalBehind(offsets)
  {
    if offsets != [] {
      BehindAddsUp(offsets[..|offsets| - 1]);
    }
  }

  predicate Ranked(x: int, y: int, descending: bool, a: GroupState, b: GroupState) {
    (if descending then x >= y else x <= y) && (x == y ==> Precedes(a.id, b.id))
  }

  /** In an answer to the query `a` stands before `b`. */
  predicate StandsBefore(query: Query, a: GroupState, b: GroupState) {
    match query.orderBy
    case ByMembers => Ranked(|a.members|, |b.members|, query.descending, a, b)
    case ByMessagesBehind =>
      Ranked(Wrap64(TotalBehind(a.offsets)), Wrap64(TotalBehind(b.offsets)), query.descending, a, b)
    case ByTopicCount =>
      Ranked(|set o | o in a.offsets :: o.topic|, |set o | o in b.offsets :: o.topic|, query.descending, a, b)
    case ByState =>
      || (if query.descending then Precedes(b.state, a.state) else Precedes(a.state, b.state))
      || (a.state == b.state && Precedes(a.id, b.id))
    case ByName => if query.descending then Precedes(b.id, a.id) else Precedes(a.id, b.id)
  }

  /** Of two groups with different names the comparison puts first the one that is to stand before the other. */
  lemma ComesMeans(query: Query, a: GroupState, b: GroupState)
    requires a.id != b.id
    ensures Comes(query, a, b) <==> StandsBefore(query, a, b)
  {
    CompareMeans(a.state, b.state);
    CompareMeans(a.id, b.id);
    BehindAddsUp(a.offsets);
    BehindAddsUp(b.offsets);
  }
}
