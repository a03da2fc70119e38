/** The values of a KSQL result: Go's dynamic values on a heap that may share and may be cyclic, the trees a
    result is made of, and what a value means as a tree (internal/mcpserver/tools_ksql.go). */
module KsqlValue {
  import opened Wrappers
  import opened JsonText

  /** Which keys name credentials, and the text that takes the place of their values. The repository's policy
      has a fixed list of key fragments and the text `[REDACTED]`. */
  datatype Policy = Policy(credential: string -> bool, redaction: string)

  /** A slice is the address of its first element and a length, so slices may overlap; address 0 is the nil
      slice. A map is an address. `Scalar` carries its JSON text, if JSON has one. */
  datatype Value =
    | Scalar(json: Option<string>)
    | Text(text: GoString)
    | Slice(ptr: nat, len: nat)
    | Dict(at: nat)
    | Unsupported

  type Entry = (GoString, Value)

  datatype Heap = Heap(cells: map<nat, Value>, dicts: map<nat, seq<Entry>>)

  function Cell(heap: Heap, address: nat): Value {
    if address in heap.cells then heap.cells[address] else Scalar(Some("null"))
  }

  function Entries(heap: Heap, at: nat): seq<Entry> {
    if at in heap.dicts then heap.dicts[at] else []
  }

  datatype Tree =
    | Leaf(json: Option<string>)
    | Str(text: string)
    | List(items: seq<Tree>)
    | Object(members: seq<Member>)

  datatype Member = Member(key: string, value: Tree)

  // ---------- The cost of a tree ----------

  function Nodes(t: Tree): (n: nat)
    ensures n >= 1
    decreases t, 0
  {
    match t
    case Leaf(_) => 1
    case Str(_) => 1
    case List(items) => 1 + ItemNodes(items)
    case Object(members) => 1 + MemberNodes(members)
  }

  function ItemNodes(items: seq<Tree>): (n: nat)
    ensures n >= |items|
    decreases items, 1
  {
    if items == [] then 0 else ItemNodes(items[..|items| - 1]) + Nodes(items[|items| - 1])
  }

  function MemberNodes(members: seq<Member>): (n: nat)
    ensures n >= |members|
    decreases members, 1
  {
    if members == [] then 0 else MemberNodes(members[..|members| - 1]) + Nodes(members[|members| - 1].value)
  }

  /** The bytes of all strings of a tree, as JSON literals. */
  function TextBytes(t: Tree): nat
    decreases t, 0
  {
    match t
    case Leaf(_) => 0
    case Str(text) => QuotedSize(text)
    case List(items) => ItemBytes(items)
    case Object(members) => MemberBytes(members)
  }

  function ItemBytes(items: seq<Tree>): nat
    decreases items, 1
  {
    if items == [] then 0 else ItemBytes(items[..|items| - 1]) + TextBytes(items[|items| - 1])
  }

  function MemberBytes(members: seq<Member>): nat
    decreases members, 1
  {
    if members == [] then 0
    else
      var last := members[|members| - 1];
      MemberBytes(members[..|members| - 1]) + QuotedSize(last.key) + TextBytes(last.value)
  }

  // ---------- What a value means ----------

  datatype Visit = SliceAt(ptr: nat) | DictAt(ptr: nat)

  function Key(v: Value): Option<Visit> {
    match v
    case Slice(ptr, _) => if ptr == 0 then None else Some(SliceAt(ptr))
    case Dict(at) => Some(DictAt(at))
    case _ => None
  }

  function Enter(v: Value, path: set<Visit>): set<Visit> {
    if Key(v).Some? then path + {Key(v).value} else path
  }

  predicate Revisits(v: Value, path: set<Visit>) {
    Key(v).Some? && Key(v).value in path
  }

  /** The tree of a value with everything under a credential key redacted; None when the value is nested too
      deeply, not expressible, or comes back to a slice or map it is inside of. */
  function Expand(heap: Heap, policy: Policy, v: Value, sensitive: bool, fuel: nat, path: set<Visit>): Option<Tree>
    decreases fuel, 1, 0
  {
    if fuel == 0 then None
    else if sensitive then Some(Str(policy.redaction))
    else if Revisits(v, path) then None
    else match v
      case Scalar(json) => Some(Leaf(json))
      case Text(Valid(text)) => Some(Str(text))
      case Text(Invalid) => None
      case Slice(ptr, len) =>
        (match ExpandCells(heap, policy, ptr, len, fuel - 1, Enter(v, path))
         case None => None
         case Some(items) => Some(List(items)))
      case Dict(at) =>
        (match ExpandEntries(heap, policy, Entries(heap, at), fuel - 1, Enter(v, path))
         case None => None
         case Some(members) => Some(Object(members)))
      case Unsupported => None
  }

  function ExpandCells(heap: Heap, policy: Policy, ptr: nat, n: nat, fuel: nat, path: set<Visit>)
    : (r: Option<seq<Tree>>)
    ensures r.Some? ==> |r.value| == n
    decreases fuel, 2, n
  {
    if n == 0 then Some([])
    else match ExpandCells(heap, policy, ptr, n - 1, fuel, path)
      case None => None
      case Some(items) =>
        match Expand(heap, policy, Cell(heap, ptr + n - 1), false, fuel, path)
        case None => None
        case Some(item) => Some(items + [item])
  }

  function ExpandEntries(heap: Heap, policy: Policy, entries: seq<Entry>, fuel: nat, path: set<Visit>)
    : (r: Option<seq<Member>>)
    ensures r.Some? ==> |r.value| == |entries|
    decreases fuel, 2, |entries|
  {
    if entries == [] then Some([])
    else match ExpandEntries(heap, policy, entries[..|entries| - 1], fuel, path)
      case None => None
      case Some(members) =>
        var (key, value) := entries[|entries| - 1];
        if key.Invalid? then None
        else match Expand(heap, policy, value, policy.credential(key.text), fuel, path)
          case None => None
          case Some(member) => Some(members + [Member(key.text, member)])
  }

  // ---------- The same, one step at a time ----------
  //
  // `Means` and its companions say that a tree is the expansion of a value, so that the expansion is only
  // unfolded by the lemmas below.

  ghost predicate Means(heap: Heap, policy: Policy, v: Value, sensitive: bool, fuel: nat, path: set<Visit>,
      t: Option<Tree>) {
    forall f: nat {:trigger Expand(heap, policy, v, sensitive, f, path)} ::
      f == fuel ==> Expand(heap, policy, v, sensitive, f, path) == t
  }

  ghost predicate CellsMean(heap: Heap, policy: Policy, ptr: nat, n: nat, fuel: nat, path: set<Visit>,
      t: Option<seq<Tree>>) {
    forall f: nat {:trigger ExpandCells(heap, policy, ptr, n, f, path)} ::
      f == fuel ==> ExpandCells(heap, policy, ptr, n, f, path) == t
  }

  ghost predicate EntriesMean(heap: Heap, policy: Policy, entries: seq<Entry>, fuel: nat, path: set<Visit>,
      t: Option<seq<Member>>) {
    forall f: nat {:trigger ExpandEntries(heap, policy, entries, f, path)} ::
      f == fuel ==> ExpandEntries(heap, policy, entries, f, path) == t
  }

  lemma Meaning(heap: Heap, policy: Policy, v: Value, sensitive: bool, fuel: nat, path: set<Visit>)
    returns (t: Option<Tree>, items: Option<seq<Tree>>, members: Option<seq<Member>>)
    ensures Means(heap, policy, v, sensitive, fuel, path, t)
    ensures fuel == 0 ==> t.None?
    ensures fuel > 0 && sensitive ==> t == Some(Str(policy.redaction))
    ensures fuel > 0 && !sensitive && Revisits(v, path) ==> t.None?
    ensures fuel > 0 && !sensitive && !Revisits(v, path) ==>
              match v
              case Scalar(json) => t == Some(Leaf(json))
              case Text(Valid(text)) => t == Some(Str(text))
              case Text(Invalid) => t.None?
              case Slice(ptr, len) =>
                && CellsMean(heap, policy, ptr, len, fuel - 1, Enter(v, path), items)
                && (items.Some? ==> |items.value| == len && t == Some(List(items.value)))
                && (items.None? ==> t.None?)
              case Dict(at) =>
                && EntriesMean(heap, policy, Entries(heap, at), fuel - 1, Enter(v, path), members)
                && (members.Some? ==> |members.value| == |Entries(heap, at)| && t == Some(Object(members.value)))
                && (members.None? ==> t.None?)
              case Unsupported => t.None?
  {
    t, items, members := Expand(heap, policy, v, sensitive, fuel, path), None, None;
    if fuel > 0 && !sensitive && !Revisits(v, path) {
      match v
      case Slice(ptr, len) => items := ExpandCells(heap, policy, ptr, len, fuel - 1, Enter(v, path));
      case Dict(at) => members := ExpandEntries(heap, policy, Entries(heap, at), fuel - 1, Enter(v, path));
      case _ =>
    }
  }

  lemma CellsStart(heap: Heap, policy: Policy, ptr: nat, fuel: nat, path: set<Visit>)
    ensures CellsMean(heap, policy, ptr, 0, fuel, path, Some([]))
  {
  }

  lemma CellsStep(heap: Heap, policy: Policy, ptr: nat, i: nat, fuel: nat, path: set<Visit>, items: seq<Tree>,
      t: Option<Tree>)
    requires CellsMean(heap, policy, ptr, i, fuel, path, Some(items))
    requires Means(heap, policy, Cell(heap, ptr + i), false, fuel, path, t)
    ensures CellsMean(heap, policy, ptr, i + 1, fuel, path, if t.Some? then Some(items + [t.value]) else None)
  {
    assert ExpandCells(heap, policy, ptr, i, fuel, path) == Some(items);
    assert Expand(heap, policy, Cell(heap, ptr + i), false, fuel, path) == t;
  }

  /** A slice costs at least as much as its first elements and one node for each of the others. */
  lemma {:induction false} CellsWhole(heap: Heap, policy: Policy, ptr: nat, i: nat, n: nat, fuel: nat,
      path: set<Visit>, part: Option<seq<Tree>>)
    returns (all: Option<seq<Tree>>)
    requires i <= n && CellsMean(heap, policy, ptr, i, fuel, path, part)
    ensures CellsMean(heap, policy, ptr, n, fuel, path, all)
    ensures all.Some? ==>
      part.Some? && ItemNodes(part.value) <= ItemNodes(all.value) && ItemBytes(part.value) <= ItemBytes(all.value)
    decreases n - i
  {
    if i == n {
      all := part;
    } else {
      var front := CellsWhole(heap, policy, ptr, i, n - 1, fuel, path, part);
      all := ExpandCells(heap, policy, ptr, n, fuel, path);
      assert ExpandCells(heap, policy, ptr, n - 1, fuel, path) == front;
      if all.Some? {
        assert all.value[..n - 1] == front.value;
      }
    }
  }

  lemma EntriesStart(heap: Heap, policy: Policy, fuel: nat, path: set<Visit>)
    ensures EntriesMean(heap, policy, [], fuel, path, Some([]))
  {
  }

  lemma EntriesStep(heap: Heap, policy: Policy, entries: seq<Entry>, i: nat, fuel: nat, path: set<Visit>,
      members: seq<Member>, t: Option<Tree>)
    requires i < |entries| && EntriesMean(heap, policy, entries[..i], fuel, path, Some(members))
    requires entries[i].0.Valid? ==>
      Means(heap, policy, entries[i].1, policy.credential(entries[i].0.text), fuel, path, t)
    ensures EntriesMean(heap, policy, entries[..i + 1], fuel, path, With(members, entries[i].0, t))
  {
    assert entries[..i + 1][..i] == entries[..i];
    assert ExpandEntries(heap, policy, entries[..i], fuel, path) == Some(members);
    if entries[i].0.Valid? {
      assert Expand(heap, policy, entries[i].1, policy.credential(entries[i].0.text), fuel, path) == t;
    }
  }

  lemma {:induction false} EntriesWhole(heap: Heap, policy: Policy, entries: seq<Entry>, i: nat, fuel: nat,
      path: set<Visit>, part: Option<seq<Member>>)
    returns (all: Option<seq<Member>>)
    requires i <= |entries| && EntriesMean(heap, policy, entries[..i], fuel, path, part)
    ensures EntriesMean(heap, policy, entries, fuel, path, all)
    ensures all.Some? ==>
      part.Some? && MemberNodes(part.value) <= MemberNodes(all.value) &&
        MemberBytes(part.value) <= MemberBytes(all.value)
    decreases |entries| - i
  {
    var n := |entries|;
    if i == n {
      assert entries[..i] == entries;
      all := part;
    } else {
      assert entries[..n - 1][..i] == entries[..i];
      var front := EntriesWhole(heap, policy, entries[..n - 1], i, fuel, path, part);
      all := ExpandEntries(heap, policy, entries, fuel, path);
      assert ExpandEntries(heap, policy, entries[..n - 1], fuel, path) == front;
      if all.Some? {
        assert all.value[..n - 1] == front.value;
      }
    }
  }

  function With(members: seq<Member>, key: GoString, t: Option<Tree>): Option<seq<Member>> {
    if key.Valid? && t.Some? then Some(members + [Member(key.text, t.value)]) else None
  }

  lemma SameCells(heap: Heap, policy: Policy, ptr: nat, n: nat, fuel: nat, path: set<Visit>, a: Option<seq<Tree>>,
      b: Option<seq<Tree>>)
    requires CellsMean(heap, policy, ptr, n, fuel, path, a) && CellsMean(heap, policy, ptr, n, fuel, path, b)
    ensures a == b
  {
    assert ExpandCells(heap, policy, ptr, n, fuel, path) == a;
  }

  lemma SameEntries(heap: Heap, policy: Policy, entries: seq<Entry>, fuel: nat, path: set<Visit>,
      a: Option<seq<Member>>, b: Option<seq<Member>>)
    requires EntriesMean(heap, policy, entries, fuel, path, a) && EntriesMean(heap, policy, entries, fuel, path, b)
    ensures a == b
  {
    assert ExpandEntries(heap, policy, entries, fuel, path) == a;
  }

  // ---------- Values without a tree ----------

  /** The value has no tree however deep it may be nested. */
  ghost predicate Hopeless(heap: Heap, policy: Policy, v: Value, sensitive: bool, path: set<Visit>) {
    forall f: nat {:trigger Expand(heap, policy, v, sensitive, f, path)} ::
      Expand(heap, policy, v, sensitive, f, path).None?
  }

  ghost predicate HopelessCells(heap: Heap, policy: Policy, ptr: nat, n: nat, path: set<Visit>) {
    forall f: nat {:trigger ExpandCells(heap, policy, ptr, n, f, path)} ::
      ExpandCells(heap, policy, ptr, n, f, path).None?
  }

  ghost predicate HopelessEntries(heap: Heap, policy: Policy, entries: seq<Entry>, path: set<Visit>) {
    forall f: nat {:trigger ExpandEntries(heap, policy, entries, f, path)} ::
      ExpandEntries(heap, policy, entries, f, path).None?
  }

  /** What makes a value hopeless by itself. */
  predicate Inexpressible(v: Value, path: set<Visit>) {
    v.Unsupported? || v == Text(GoString.Invalid) || Revisits(v, path)
  }

  lemma InexpressibleIsHopeless(heap: Heap, policy: Policy, v: Value, path: set<Visit>)
    requires Inexpressible(v, path)
    ensures Hopeless(heap, policy, v, false, path)
  {
  }

  lemma HopelessInside(heap: Heap, policy: Policy, v: Value, path: set<Visit>)
    requires match v
             case Slice(ptr, len) => HopelessCells(heap, policy, ptr, len, Enter(v, path))
             case Dict(at) => HopelessEntries(heap, policy, Entries(heap, at), Enter(v, path))
             case _ => false
    ensures Hopeless(heap, policy, v, false, path)
  {
    forall f: nat
      ensures Expand(heap, policy, v, false, f, path).None?
    {
      if f > 0 {
        match v
        case Slice(ptr, len) => assert ExpandCells(heap, policy, ptr, len, f - 1, Enter(v, path)).None?;
        case Dict(at) => assert ExpandEntries(heap, policy, Entries(heap, at), f - 1, Enter(v, path)).None?;
      }
    }
  }

  lemma {:induction false} HopelessCell(heap: Heap, policy: Policy, ptr: nat, i: nat, n: nat, path: set<Visit>)
    requires i < n && Hopeless(heap, policy, Cell(heap, ptr + i), false, path)
    ensures HopelessCells(heap, policy, ptr, n, path)
  {
    if i < n - 1 {
      HopelessCell(heap, policy, ptr, i, n - 1, path);
    }
    forall f: nat
      ensures ExpandCells(heap, policy, ptr, n, f, path).None?
    {
      if i < n - 1 {
        assert ExpandCells(heap, policy, ptr, n - 1, f, path).None?;
      } else {
        assert Expand(heap, policy, Cell(heap, ptr + i), false, f, path).None?;
      }
    }
  }

  lemma {:induction false} HopelessEntry(heap: Heap, policy: Policy, entries: seq<Entry>, i: nat, path: set<Visit>)
    requires i < |entries| && entries[i].0.Valid?
    requires Hopeless(heap, policy, entries[i].1, policy.credential(entries[i].0.text), path)
    ensures HopelessEntries(heap, policy, entries, path)
  {
    var n := |entries| - 1;
    if i < n {
      HopelessEntry(heap, policy, entries[..n], i, path);
    }
    forall f: nat
      ensures ExpandEntries(heap, policy, entries, f, path).None?
    {
      if i < n {
        assert ExpandEntries(heap, policy, entries[..n], f, path).None?;
      } else {
        assert Expand(heap, policy, entries[i].1, policy.credential(entries[i].0.text), f, path).None?;
      }
    }
  }
}
