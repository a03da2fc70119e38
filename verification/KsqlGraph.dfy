/** When a value on the heap has a tree, and how its tree relates to the unredacted one. */
module KsqlGraph {
  import opened Wrappers
  import opened KsqlValue

  // ---------- Redaction (redactJSONCredentials of internal/mcpserver/sanitize.go) ----------

  function Redact(policy: Policy, t: Tree): Tree
    decreases t, 0
  {
    match t
    case Object(members) => Object(RedactMembers(policy, members))
    case List(items) => List(RedactItems(policy, items))
    case _ => t
  }

  function RedactItems(policy: Policy, items: seq<Tree>): seq<Tree>
    decreases items, 1
  {
    if items == [] then []
    else RedactItems(policy, items[..|items| - 1]) + [Redact(policy, items[|items| - 1])]
  }

  function RedactMembers(policy: Policy, members: seq<Member>): seq<Member>
    decreases members, 1
  {
    if members == [] then []
    else
      var last := members[|members| - 1];
      RedactMembers(policy, members[..|members| - 1]) +
      [Member(last.key, if policy.credential(last.key) then Str(policy.redaction) else Redact(policy, last.value))]
  }

  function Plain(policy: Policy): Policy {
    policy.(credential := key => false)
  }

  /** Redacting while copying gives what redacting a full copy gives. */
  lemma {:induction false} RedactionCommutes(heap: Heap, policy: Policy, v: Value, fuel: nat, path: set<Visit>)
    requires Expand(heap, Plain(policy), v, false, fuel, path).Some?
    ensures Expand(heap, policy, v, false, fuel, path) ==
            Some(Redact(policy, Expand(heap, Plain(policy), v, false, fuel, path).value))
    decreases fuel, 1, 0
  {
    match v
    case Slice(ptr, len) => CellsCommute(heap, policy, ptr, len, fuel - 1, Enter(v, path));
    case Dict(at) => EntriesCommute(heap, policy, Entries(heap, at), fuel - 1, Enter(v, path));
    case _ =>
  }

  lemma {:induction false} CellsCommute(heap: Heap, policy: Policy, ptr: nat, n: nat, fuel: nat, path: set<Visit>)
    requires ExpandCells(heap, Plain(policy), ptr, n, fuel, path).Some?
    ensures ExpandCells(heap, policy, ptr, n, fuel, path) ==
            Some(RedactItems(policy, ExpandCells(heap, Plain(policy), ptr, n, fuel, path).value))
    decreases fuel, 2, n
  {
    if n > 0 {
      CellsCommute(heap, policy, ptr, n - 1, fuel, path);
      RedactionCommutes(heap, policy, Cell(heap, ptr + n - 1), fuel, path);
      var items := ExpandCells(heap, Plain(policy), ptr, n, fuel, path).value;
      assert items[..n - 1] == ExpandCells(heap, Plain(policy), ptr, n - 1, fuel, path).value;
    }
  }

  lemma {:induction false} EntriesCommute(heap: Heap, policy: Policy, entries: seq<Entry>, fuel: nat, path: set<Visit>)
    requires ExpandEntries(heap, Plain(policy), entries, fuel, path).Some?
    ensures ExpandEntries(heap, policy, entries, fuel, path) ==
            Some(RedactMembers(policy, ExpandEntries(heap, Plain(policy), entries, fuel, path).value))
    decreases fuel, 2, |entries|
  {
    if entries != [] {
      var n := |entries| - 1;
      EntriesCommute(heap, policy, entries[..n], fuel, path);
      if !policy.credential(entries[n].0.text) {
        RedactionCommutes(heap, policy, entries[n].1, fuel, path);
      }
      var members := ExpandEntries(heap, Plain(policy), entries, fuel, path).value;
      assert members[..n] == ExpandEntries(heap, Plain(policy), entries[..n], fuel, path).value;
    }
  }

  // ---------- Walks through the part that is not redacted ----------

  predicate CellEdge(heap: Heap, v: Value, w: Value, i: nat) {
    v.Slice? && i < v.len && w == Cell(heap, v.ptr + i)
  }

  predicate EntryEdge(heap: Heap, policy: Policy, v: Value, w: Value, i: nat) {
    && v.Dict? && i < |Entries(heap, v.at)|
    && Entries(heap, v.at)[i].0.Valid? && !policy.credential(Entries(heap, v.at)[i].0.text)
    && w == Entries(heap, v.at)[i].1
  }

  /** `w` stands directly inside `v` and is not redacted. */
  ghost predicate Edge(heap: Heap, policy: Policy, v: Value, w: Value) {
    (exists i: nat :: CellEdge(heap, v, w, i)) || (exists i: nat :: EntryEdge(heap, policy, v, w, i))
  }

  ghost predicate Walk(heap: Heap, policy: Policy, vs: seq<Value>)
    decreases |vs|
  {
    vs != [] && (|vs| > 1 ==> Edge(heap, policy, vs[0], vs[1]) && Walk(heap, policy, vs[1..]))
  }

  predicate KeysAreValid(entries: seq<Entry>) {
    forall i :: 0 <= i < |entries| ==> entries[i].0.Valid?
  }

  predicate Supported(heap: Heap, v: Value) {
    match v
    case Unsupported => false
    case Text(text) => text.Valid?
    case Dict(at) => KeysAreValid(Entries(heap, at))
    case _ => true
  }

  /** A walk the copy can follow: not deeper than the fuel, ending in something it can copy, with nothing below
      the last level, and never coming back to a slice or map. */
  ghost predicate Good(heap: Heap, vs: seq<Value>, fuel: nat, path: set<Visit>)
    decreases |vs|
  {
    && vs != [] && fuel > 0
    && !Revisits(vs[0], path)
    && if |vs| > 1 then Good(heap, vs[1..], fuel - 1, Enter(vs[0], path))
       else Supported(heap, vs[0]) && (fuel == 1 && vs[0].Dict? ==> Entries(heap, vs[0].at) == [])
  }

  ghost predicate AllGood(heap: Heap, policy: Policy, v: Value, fuel: nat, path: set<Visit>) {
    forall vs {:trigger Walk(heap, policy, vs)} :: Walk(heap, policy, vs) && vs[0] == v ==> Good(heap, vs, fuel, path)
  }

  predicate CellExpands(heap: Heap, policy: Policy, ptr: nat, i: nat, fuel: nat, path: set<Visit>) {
    Expand(heap, policy, Cell(heap, ptr + i), false, fuel, path).Some?
  }

  lemma {:induction false} CellsEach(heap: Heap, policy: Policy, ptr: nat, n: nat, fuel: nat, path: set<Visit>)
    ensures ExpandCells(heap, policy, ptr, n, fuel, path).Some? <==>
            forall i: nat :: i < n ==> CellExpands(heap, policy, ptr, i, fuel, path)
    decreases n
  {
    if n > 0 {
      CellsEach(heap, policy, ptr, n - 1, fuel, path);
      assert ptr + (n - 1) == ptr + n - 1;
      assert CellExpands(heap, policy, ptr, n - 1, fuel, path) <==>
             Expand(heap, policy, Cell(heap, ptr + n - 1), false, fuel, path).Some?;
    }
  }

  predicate EntryExpands(heap: Heap, policy: Policy, entry: Entry, fuel: nat, path: set<Visit>) {
    entry.0.Valid? && Expand(heap, policy, entry.1, policy.credential(entry.0.text), fuel, path).Some?
  }

  lemma {:induction false} EntriesEach(heap: Heap, policy: Policy, entries: seq<Entry>, fuel: nat, path: set<Visit>)
    ensures ExpandEntries(heap, policy, entries, fuel, path).Some? <==>
            forall i :: 0 <= i < |entries| ==> EntryExpands(heap, policy, entries[i], fuel, path)
    decreases |entries|
  {
    if entries != [] {
      var n := |entries| - 1;
      EntriesEach(heap, policy, entries[..n], fuel, path);
      assert forall i :: 0 <= i < n ==> entries[..n][i] == entries[i];
      if forall i :: 0 <= i < |entries| ==> EntryExpands(heap, policy, entries[i], fuel, path) {
        assert EntryExpands(heap, policy, entries[n], fuel, path);
        assert forall i :: 0 <= i < n ==> EntryExpands(heap, policy, entries[..n][i], fuel, path);
      }
    }
  }

  lemma {:induction false} ExpandedWalksAreGood(heap: Heap, policy: Policy, vs: seq<Value>, fuel: nat, path: set<Visit>)
    requires Walk(heap, policy, vs) && Expand(heap, policy, vs[0], false, fuel, path).Some?
    ensures Good(heap, vs, fuel, path)
    decreases |vs|
  {
    var v := vs[0];
    if v.Slice? {
      CellsEach(heap, policy, v.ptr, v.len, fuel - 1, Enter(v, path));
    } else if v.Dict? {
      EntriesEach(heap, policy, Entries(heap, v.at), fuel - 1, Enter(v, path));
      assert forall i :: 0 <= i < |Entries(heap, v.at)| ==>
        EntryExpands(heap, policy, Entries(heap, v.at)[i], fuel - 1, Enter(v, path));
    }
    if |vs| > 1 {
      if i: nat :| CellEdge(heap, v, vs[1], i) {
        assert CellExpands(heap, policy, v.ptr, i, fuel - 1, Enter(v, path));
        ExpandedWalksAreGood(heap, policy, vs[1..], fuel - 1, Enter(v, path));
      } else {
        var i: nat :| EntryEdge(heap, policy, v, vs[1], i);
        assert EntryExpands(heap, policy, Entries(heap, v.at)[i], fuel - 1, Enter(v, path));
        ExpandedWalksAreGood(heap, policy, vs[1..], fuel - 1, Enter(v, path));
      }
    }
  }

  lemma StepGood(heap: Heap, policy: Policy, v: Value, w: Value, fuel: nat, path: set<Visit>)
    requires AllGood(heap, policy, v, fuel, path) && fuel > 0 && Edge(heap, policy, v, w)
    ensures AllGood(heap, policy, w, fuel - 1, Enter(v, path))
  {
    forall ws {:trigger Walk(heap, policy, ws)} | Walk(heap, policy, ws) && ws[0] == w
      ensures Good(heap, ws, fuel - 1, Enter(v, path))
    {
      var vs := [v] + ws;
      assert vs[1..] == ws;
      assert Walk(heap, policy, vs);
    }
  }

  lemma {:induction false} GoodWalksExpand(heap: Heap, policy: Policy, v: Value, fuel: nat, path: set<Visit>)
    requires AllGood(heap, policy, v, fuel, path)
    ensures Expand(heap, policy, v, false, fuel, path).Some?
    decreases fuel
  {
    assert Walk(heap, policy, [v]);
    var inside, left := Enter(v, path), fuel - 1;
    if v.Slice? {
      forall i: nat | i < v.len
        ensures CellExpands(heap, policy, v.ptr, i, left, inside)
      {
        assert CellEdge(heap, v, Cell(heap, v.ptr + i), i);
        StepGood(heap, policy, v, Cell(heap, v.ptr + i), fuel, path);
        GoodWalksExpand(heap, policy, Cell(heap, v.ptr + i), fuel - 1, inside);
      }
      CellsEach(heap, policy, v.ptr, v.len, fuel - 1, inside);
    } else if v.Dict? {
      var entries := Entries(heap, v.at);
      forall i | 0 <= i < |entries|
        ensures EntryExpands(heap, policy, entries[i], fuel - 1, inside)
      {
        if !policy.credential(entries[i].0.text) {
          assert EntryEdge(heap, policy, v, entries[i].1, i);
          StepGood(heap, policy, v, entries[i].1, fuel, path);
          GoodWalksExpand(heap, policy, entries[i].1, fuel - 1, inside);
        }
      }
      EntriesEach(heap, policy, entries, fuel - 1, inside);
    }
  }

  /** A value has a tree exactly when every walk into its unredacted part can be followed. */
  lemma ExpandsIffWalksAreGood(heap: Heap, policy: Policy, v: Value, fuel: nat, path: set<Visit>)
    ensures Expand(heap, policy, v, false, fuel, path).Some? <==> AllGood(heap, policy, v, fuel, path)
  {
    if Expand(heap, policy, v, false, fuel, path).Some? {
      forall vs {:trigger Walk(heap, policy, vs)} | Walk(heap, policy, vs) && vs[0] == v
        ensures Good(heap, vs, fuel, path)
      {
        ExpandedWalksAreGood(heap, policy, vs, fuel, path);
      }
    } else if AllGood(heap, policy, v, fuel, path) {
      GoodWalksExpand(heap, policy, v, fuel, path);
    }
  }

  lemma {:induction false} GoodWalksDoNotReturn(heap: Heap, vs: seq<Value>, fuel: nat, path: set<Visit>, i: nat, j: nat)
    requires Good(heap, vs, fuel, path) && i < j < |vs| && Key(vs[i]).Some?
    ensures Key(vs[i]) != Key(vs[j]) && |vs| <= fuel
    decreases |vs|
  {
    GoodLength(heap, vs, fuel, path);
    if i > 0 {
      GoodWalksDoNotReturn(heap, vs[1..], fuel - 1, Enter(vs[0], path), i - 1, j - 1);
    } else {
      GoodAvoids(heap, vs[1..], fuel - 1, Enter(vs[0], path), j - 1);
    }
  }

  lemma {:induction false} GoodLength(heap: Heap, vs: seq<Value>, fuel: nat, path: set<Visit>)
    requires Good(heap, vs, fuel, path)
    ensures |vs| <= fuel
    decreases |vs|
  {
    if |vs| > 1 {
      GoodLength(heap, vs[1..], fuel - 1, Enter(vs[0], path));
    }
  }

  lemma {:induction false} GoodAvoids(heap: Heap, vs: seq<Value>, fuel: nat, path: set<Visit>, j: nat)
    requires Good(heap, vs, fuel, path) && j < |vs|
    ensures !Revisits(vs[j], path)
    decreases |vs|
  {
    if j > 0 {
      GoodAvoids(heap, vs[1..], fuel - 1, Enter(vs[0], path), j - 1);
    }
  }

  /** A value whose unredacted part is cyclic has no tree, at any depth limit. (No Go slice with elements stands
      at address 0.) */
  lemma CyclesAreRejected(heap: Heap, policy: Policy, vs: seq<Value>, i: nat, j: nat, fuel: nat, path: set<Visit>)
    requires Walk(heap, policy, vs) && i < j < |vs| && vs[i] == vs[j] && Key(vs[i]).Some?
    ensures Expand(heap, policy, vs[0], false, fuel, path).None?
  {
    if Expand(heap, policy, vs[0], false, fuel, path).Some? {
      ExpandedWalksAreGood(heap, policy, vs, fuel, path);
      GoodWalksDoNotReturn(heap, vs, fuel, path, i, j);
    }
  }

  // ---------- An acyclic value without a tree ----------

  /** A slice of one element that holds the empty prefix of itself. */
  const ALIASED_HEAP := Heap(map[1 := Slice(1, 0)], map[])
  const ALIASED := Slice(1, 1)

  lemma NothingInside(policy: Policy, vs: seq<Value>)
    requires Walk(ALIASED_HEAP, policy, vs) && vs[0] == Slice(1, 0)
    ensures |vs| == 1
  {
  }

  /** Cycle detection goes by address: no walk from this value is longer than two steps, yet it has no tree,
      because the empty slice inside it starts at the same address. */
  lemma AliasedPrefixIsRejected(policy: Policy, fuel: nat)
    ensures Expand(ALIASED_HEAP, policy, ALIASED, false, fuel, {}).None?
    ensures forall vs :: Walk(ALIASED_HEAP, policy, vs) && vs[0] == ALIASED ==> |vs| <= 2
  {
    var inner := Slice(1, 0);
    assert CellEdge(ALIASED_HEAP, ALIASED, inner, 0);
    if Expand(ALIASED_HEAP, policy, ALIASED, false, fuel, {}).Some? {
      var vs := [ALIASED, inner];
      assert vs[1..] == [inner] && Walk(ALIASED_HEAP, policy, [inner]);
      ExpandedWalksAreGood(ALIASED_HEAP, policy, vs, fuel, {});
      GoodWalksDoNotReturn(ALIASED_HEAP, vs, fuel, {}, 0, 1);
    }
    forall vs | Walk(ALIASED_HEAP, policy, vs) && vs[0] == ALIASED
      ensures |vs| <= 2
    {
      if |vs| > 1 {
        var i: nat :| CellEdge(ALIASED_HEAP, ALIASED, vs[1], i);
        NothingInside(policy, vs[1..]);
      }
    }
  }
}
