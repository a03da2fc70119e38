/** The budgeted copy of KSQL values (`ksqlValueBudget` of internal/mcpserver/tools_ksql.go). */
module KsqlBudget {
  import opened Wrappers
  import opened JsonText
  import opened KsqlValue

  const MAX_ROWS: nat := 500
  const MAX_COLUMNS: nat := 512
  const MAX_DEPTH: nat := 32
  const MAX_NODES: nat := MAX_ROWS * MAX_COLUMNS + MAX_ROWS
  const MAX_RESULT_BYTES: nat := 0x10_0000
  const ENVELOPE_RESERVE: nat := 128

  datatype CollectError = CollectionLimit | OperationFailed

  /** How many values stand directly inside. */
  function Children(heap: Heap, v: Value): nat {
    match v
    case Slice(_, len) => len
    case Dict(at) => |Entries(heap, at)|
    case _ => 0
  }

  class ValueBudget {
    const heap: Heap
    const policy: Policy
    var nodes: nat
    var bytes: nat
    var visiting: set<Visit>

    constructor (heap: Heap, policy: Policy)
      ensures Valid() && this.heap == heap && this.policy == policy
      ensures nodes == 0 && bytes == ENVELOPE_RESERVE && visiting == {}
    {
      this.heap, this.policy := heap, policy;
      nodes, bytes, visiting := 0, ENVELOPE_RESERVE, {};
    }

    ghost predicate Valid()
      reads this
    {
      nodes <= MAX_NODES && bytes <= MAX_RESULT_BYTES
    }

    /** How a copy ends: with a tree that was paid for exactly, or without one. */
    twostate predicate Paid(ok: bool, n: nat, b: nat)
      reads this
    {
      && Valid() && visiting == old(visiting) && old(nodes) <= nodes && old(bytes) <= bytes
      && (ok ==> nodes == old(nodes) + n && bytes == old(bytes) + b)
    }

    twostate predicate Unaffordable(n: nat, b: nat)
    {
      old(nodes) + n > MAX_NODES || old(bytes) + b > MAX_RESULT_BYTES
    }

    method CloneString(value: GoString) returns (r: Result<string, CollectError>)
      requires Valid()
      modifies this`bytes
      ensures Valid()
      ensures match value
              case Invalid => r == Err(OperationFailed) && bytes == old(bytes)
              case Valid(text) =>
                if old(bytes) + QuotedSize(text) <= MAX_RESULT_BYTES
                then r == Ok(text) && bytes == old(bytes) + QuotedSize(text)
                else r == Err(CollectionLimit) && bytes == old(bytes)
    {
      if value.Invalid? {
        return Err(OperationFailed);
      }
      var size := JsonEncodedStringSize(value.text);
      if bytes + size > MAX_RESULT_BYTES {
        return Err(CollectionLimit);
      }
      bytes := bytes + size;
      return Ok(value.text);
    }

    method CloneText(text: string) returns (r: Result<Tree, CollectError>)
      requires Valid()
      modifies this`bytes
      ensures Paid(r.Ok?, 0, TextBytes(Str(text)))
      ensures r == Ok(Str(text)) || (r == Err(CollectionLimit) && Unaffordable(0, TextBytes(Str(text))))
    {
      var copy := CloneString(GoString.Valid(text));
      r := if copy.Ok? then Ok(Str(copy.value)) else Err(copy.error);
    }

    /** The copy is the tree `t` of the value, paid for exactly. It fails iff the value has no tree within the
        remaining depth or its tree is not affordable. A failed operation is reported only of a value that has no
        tree at any depth, and of one that is inexpressible by itself whenever it is looked into. The slices and
        maps being visited are the same after every exit. */
    method Clone(value: Value, depth: nat, sensitive: bool)
      returns (r: Result<Tree, CollectError>, ghost t: Option<Tree>)
      requires Valid() && depth <= MAX_DEPTH
      modifies this
      ensures Means(heap, policy, value, sensitive, MAX_DEPTH - depth, old(visiting), t)
      ensures Paid(r.Ok?, if r.Ok? then Nodes(r.value) else 0, if r.Ok? then TextBytes(r.value) else 0)
      ensures r.Ok? ==> t == Some(r.value)
      ensures r.Err? && t.Some? ==> r.error.CollectionLimit? && Unaffordable(Nodes(t.value), TextBytes(t.value))
      ensures r == Err(OperationFailed) ==> !sensitive && Hopeless(heap, policy, value, false, old(visiting))
      ensures
        !sensitive && Inexpressible(value, old(visiting)) && depth < MAX_DEPTH &&
        old(nodes) + 1 + Children(heap, value) <= MAX_NODES
        ==>
          r == Err(OperationFailed)
      decreases MAX_DEPTH - depth, 1
    {
      ghost var items, members;
      t, items, members := Meaning(heap, policy, value, sensitive, MAX_DEPTH - depth, visiting);
      if depth >= MAX_DEPTH || nodes >= MAX_NODES {
        return Err(CollectionLimit), t;
      }
      nodes := nodes + 1;
      if sensitive {
        r := CloneText(policy.redaction);
        return;
      }
      match value {
        case Scalar(json) =>
          return Ok(Leaf(json)), t;
        case Text(text) =>
          if text.Invalid? {
            InexpressibleIsHopeless(heap, policy, value, visiting);
            return Err(OperationFailed), t;
          }
          r := CloneText(text.text);
          return;
        case Slice(ptr, len) =>
          if len > MAX_NODES - nodes {
            return Err(CollectionLimit), t;
          }
          if Revisits(value, visiting) {
            InexpressibleIsHopeless(heap, policy, value, visiting);
            return Err(OperationFailed), t;
          }
          visiting := Enter(value, visiting);
          var copies := CloneCells(ptr, len, depth, items);
          visiting := if ptr != 0 then visiting - {SliceAt(ptr)} else visiting;
          if copies == Err(OperationFailed) {
            HopelessInside(heap, policy, value, visiting);
          }
          return if copies.Ok? then Ok(List(copies.value)) else Err(copies.error), t;
        case Dict(at) =>
          if |Entries(heap, at)| > MAX_NODES - nodes {
            return Err(CollectionLimit), t;
          }
          if Revisits(value, visiting) {
            InexpressibleIsHopeless(heap, policy, value, visiting);
            return Err(OperationFailed), t;
          }
          visiting := Enter(value, visiting);
          var copies := CloneEntries(Entries(heap, at), depth, members);
          visiting := visiting - {DictAt(at)};
          if copies == Err(OperationFailed) {
            HopelessInside(heap, policy, value, visiting);
          }
          return if copies.Ok? then Ok(Object(copies.value)) else Err(copies.error), t;
        case Unsupported =>
          InexpressibleIsHopeless(heap, policy, value, visiting);
          return Err(OperationFailed), t;
      }
    }

    method CloneCells(ptr: nat, len: nat, depth: nat, ghost all: Option<seq<Tree>>)
      returns (r: Result<seq<Tree>, CollectError>)
      requires Valid() && depth < MAX_DEPTH
      requires CellsMean(heap, policy, ptr, len, MAX_DEPTH - depth - 1, visiting, all)
      modifies this
      ensures Paid(r.Ok?, if r.Ok? then ItemNodes(r.value) else 0, if r.Ok? then ItemBytes(r.value) else 0)
      ensures r.Ok? ==> all == Some(r.value)
      ensures r.Err? && all.Some? ==>
        r.error.CollectionLimit? && Unaffordable(ItemNodes(all.value), ItemBytes(all.value))
      ensures r == Err(OperationFailed) ==> HopelessCells(heap, policy, ptr, len, visiting)
      decreases MAX_DEPTH - depth, 0
    {
      var items := [];
      ghost var fuel := MAX_DEPTH - depth - 1;
      CellsStart(heap, policy, ptr, fuel, visiting);
      for i := 0 to len
        invariant Paid(true, ItemNodes(items), ItemBytes(items))
        invariant CellsMean(heap, policy, ptr, i, fuel, visiting, Some(items))
      {
        ghost var t;
        var item;
        item, t := Clone(Cell(heap, ptr + i), depth + 1, false);
        CellsStep(heap, policy, ptr, i, fuel, visiting, items, t);
        if item.Err? {
          ghost var whole := CellsWhole(heap, policy, ptr, i + 1, len, fuel, visiting,
              if t.Some? then Some(items + [t.value]) else None);
          SameCells(heap, policy, ptr, len, fuel, visiting, all, whole);
          if item == Err(OperationFailed) {
            HopelessCell(heap, policy, ptr, i, len, visiting);
          }
          return Err(item.error);
        }
        items := items + [item.value];
      }
      SameCells(heap, policy, ptr, len, fuel, visiting, all, Some(items));
      return Ok(items);
    }

    method CloneEntries(entries: seq<Entry>, depth: nat, ghost all: Option<seq<Member>>)
      returns (r: Result<seq<Member>, CollectError>)
      requires Valid() && depth < MAX_DEPTH
      requires EntriesMean(heap, policy, entries, MAX_DEPTH - depth - 1, visiting, all)
      modifies this
      ensures Paid(r.Ok?, if r.Ok? then MemberNodes(r.value) else 0, if r.Ok? then MemberBytes(r.value) else 0)
      ensures r.Ok? ==> all == Some(r.value)
      ensures r.Err? && all.Some? ==>
        r.error.CollectionLimit? && Unaffordable(MemberNodes(all.value), MemberBytes(all.value))
      ensures r == Err(OperationFailed) ==> HopelessEntries(heap, policy, entries, visiting)
      decreases MAX_DEPTH - depth, 0
    {
      var members := [];
      ghost var fuel := MAX_DEPTH - depth - 1;
      EntriesStart(heap, policy, fuel, visiting);
      for i := 0 to |entries|
        invariant Paid(true, MemberNodes(members), MemberBytes(members))
        invariant EntriesMean(heap, policy, entries[..i], fuel, visiting, Some(members))
      {
        var key := CloneString(entries[i].0);
        if key.Err? {
          ghost var sensitive := entries[i].0.Valid? && policy.credential(entries[i].0.text);
          ghost var u, _, _ := Meaning(heap, policy, entries[i].1, sensitive, fuel, visiting);
          EntriesStep(heap, policy, entries, i, fuel, visiting, members, u);
          ghost var whole := EntriesWhole(heap, policy, entries, i + 1, fuel, visiting, With(members, entries[i].0, u));
          SameEntries(heap, policy, entries, fuel, visiting, all, whole);
          return Err(CollectionLimit);
        }
        ghost var t;
        var copy;
        copy, t := Clone(entries[i].1, depth + 1, policy.credential(key.value));
        EntriesStep(heap, policy, entries, i, fuel, visiting, members, t);
        if copy.Err? {
          ghost var whole := EntriesWhole(heap, policy, entries, i + 1, fuel, visiting, With(members, entries[i].0, t));
          SameEntries(heap, policy, entries, fuel, visiting, all, whole);
          if copy == Err(OperationFailed) {
            HopelessEntry(heap, policy, entries, i, visiting);
          }
          return Err(copy.error);
        }
        members := members + [Member(key.value, copy.value)];
      }
      assert entries[..|entries|] == entries;
      SameEntries(heap, policy, entries, fuel, visiting, all, Some(members));
      return Ok(members);
    }
  }
}
