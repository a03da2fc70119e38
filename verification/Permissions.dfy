/** The role index and the permission checks of the user interface (frontend/src/lib/permissions.ts). */
module Permissions {
  import opened Wrappers

  datatype Resource =
    | ApplicationConfig | ClusterConfig | Topic | Consumer | Schema | Connect
    | Connector | Ksql | Acl | Audit | ClientQuotas

  datatype Action =
    | All | View | Edit | Create | Delete | ResetOffsets | Execute | ModifyGlobalCompatibility
    | AnalysisView | AnalysisRun
    | MessagesRead | MessagesProduce | MessagesDelete | Operate | Restart

  /** One entry of a user's roles; the value is a regular expression over resource names. */
  datatype Permission = Permission(clusters: seq<string>, resource: Resource, value: Option<string>,
    actions: seq<Action>)

  type Index = map<string, map<Resource, seq<Permission>>>

  /** Whether a regular expression finds a match in a text. */
  type Regex = (string, string) -> bool

  const EXEMPT: set<Resource> := {Ksql, ClusterConfig, ApplicationConfig, Acl, Audit}

  // ---------- The flat scan ----------

  function Copies(item: Permission, clusters: seq<string>, cluster: string): seq<Permission> {
    if clusters == [] then []
    else
      var one := if clusters[|clusters| - 1] == cluster then [item] else [];
      Copies(item, clusters[..|clusters| - 1], cluster) + one
  }

  /** The items for a cluster and a resource in list order, each once per occurrence of the cluster. */
  function Matching(data: seq<Permission>, cluster: string, resource: Resource): seq<Permission> {
    if data == [] then []
    else
      var item := data[|data| - 1];
      Matching(data[..|data| - 1], cluster, resource) +
        (if item.resource == resource then Copies(item, item.clusters, cluster) else [])
  }

  /** An item of the list concerns a cluster and a resource. */
  predicate Concerns(item: Permission, cluster: string, resource: Resource) {
    cluster in item.clusters && item.resource == resource
  }

  lemma {:induction false} CopiesAre(item: Permission, clusters: seq<string>, cluster: string)
    ensures forall x :: x in Copies(item, clusters, cluster) <==> x == item && cluster in clusters
  {
    if clusters != [] {
      CopiesAre(item, clusters[..|clusters| - 1], cluster);
      assert clusters == clusters[..|clusters| - 1] + [clusters[|clusters| - 1]];
    }
  }

  lemma {:induction false} MatchingAre(data: seq<Permission>, cluster: string, resource: Resource)
    ensures forall x :: x in Matching(data, cluster, resource) <==> x in data && Concerns(x, cluster, resource)
  {
    if data != [] {
      var front, item := data[..|data| - 1], data[|data| - 1];
      assert data == front + [item];
      MatchingAre(front, cluster, resource);
      CopiesAre(item, item.clusters, cluster);
    }
  }

  // ---------- The index ----------

  /** What the index holds for a cluster and a resource; nothing there reads as no items. */
  function Entries(index: Index, cluster: string, resource: Resource): seq<Permission> {
    if cluster in index && resource in index[cluster] then index[cluster][resource] else []
  }

  /** No empty map and no empty list is ever stored. */
  predicate Dense(index: Index) {
    forall cluster :: cluster in index ==>
      index[cluster] != map[] && forall resource :: resource in index[cluster] ==> index[cluster][resource] != []
  }

  /** A dense index that holds, under each cluster and resource, exactly the flat scan. */
  ghost predicate IndexOf(index: Index, data: seq<Permission>) {
    Dense(index) && forall cluster, resource :: Entries(index, cluster, resource) == Matching(data, cluster, resource)
  }

  function Put(index: Index, cluster: string, item: Permission): Index {
    var inner := if cluster in index then index[cluster] else map[];
    index[cluster := inner[item.resource := Entries(index, cluster, item.resource) + [item]]]
  }

  lemma PutAdds(index: Index, cluster: string, item: Permission)
    requires Dense(index)
    ensures Dense(Put(index, cluster, item))
    ensures forall c, r ::
      Entries(Put(index, cluster, item), c, r) ==
        Entries(index, c, r) + (if c == cluster && r == item.resource then [item] else [])
  {
    assert item.resource in Put(index, cluster, item)[cluster];
  }

  /** What one item adds: itself, once per occurrence of the cluster. */
  ghost predicate Added(before: Index, index: Index, item: Permission, clusters: seq<string>) {
    Dense(index) &&
    forall c, r ::
      Entries(index, c, r) == Entries(before, c, r) + (if r == item.resource then Copies(item, clusters, c) else [])
  }

  lemma AddedOneMore(before: Index, index: Index, item: Permission, clusters: seq<string>, name: string)
    requires Added(before, index, item, clusters)
    ensures Added(before, Put(index, name, item), item, clusters + [name])
  {
    PutAdds(index, name, item);
    forall c, r
      ensures Entries(Put(index, name, item), c, r) ==
        Entries(before, c, r) + (if r == item.resource then Copies(item, clusters + [name], c) else [])
    {
      CopiesGrow(item, clusters, name, c);
      Reassociate(Entries(before, c, r), Copies(item, clusters, c), if name == c then [item] else []);
    }
  }

  lemma CopiesGrow(item: Permission, clusters: seq<string>, name: string, c: string)
    ensures Copies(item, clusters + [name], c) == Copies(item, clusters, c) + (if name == c then [item] else [])
  {
    assert (clusters + [name])[..|clusters|] == clusters;
  }

  lemma Reassociate(a: seq<Permission>, b: seq<Permission>, c: seq<Permission>)
    ensures (a + b) + c == a + (b + c) && (a + []) + [] == a + []
  {
  }

  lemma IndexOneMore(before: Index, data: seq<Permission>, index: Index, item: Permission)
    requires IndexOf(before, data) && Added(before, index, item, item.clusters)
    ensures IndexOf(index, data + [item])
  {
    assert (data + [item])[..|data|] == data;
  }

  /** The nested map holds, under each cluster and resource, exactly the flat scan. */
  method ModifyRolesData(data: Option<seq<Permission>>) returns (index: Index)
    ensures IndexOf(index, data.GetOr([]))
  {
    index := map[];
    if data.Some? {
      var items := data.value;
      for i := 0 to |items|
        invariant IndexOf(index, items[..i])
      {
        ghost var before := index;
        index := IndexItem(index, items[i]);
        assert IndexOf(index, items[..i + 1]) by {
          IndexOneMore(before, items[..i], index, items[i]);
          assert items[..i + 1] == items[..i] + [items[i]];
        }
      }
      assert items[..|items|] == items;
    }
  }

  method IndexItem(roles: Index, item: Permission) returns (index: Index)
    requires Dense(roles)
    ensures Added(roles, index, item, item.clusters)
  {
    index := roles;
    for j := 0 to |item.clusters|
      invariant Added(roles, index, item, item.clusters[..j])
    {
      var name := item.clusters[j];
      ghost var next := Put(index, name, item);
      assert Added(roles, next, item, item.clusters[..j + 1]) by {
        AddedOneMore(roles, index, item, item.clusters[..j], name);
        assert item.clusters[..j + 1] == item.clusters[..j] + [name];
      }
      assert [] + [item] == [item];
      if name in index {
        var cluster := index[name];
        if item.resource in cluster {
          index := index[name := cluster[item.resource := cluster[item.resource] + [item]]];
        } else {
          index := index[name := cluster[item.resource := [item]]];
        }
      } else {
        index := index[name := map[item.resource := [item]]];
      }
      assert index == next;
    }
    assert item.clusters[..|item.clusters|] == item.clusters;
  }

  // ---------- The checks ----------

  predicate ValueMatches(regex: Regex, pattern: Option<string>, value: Option<string>) {
    value.Some? && value.value != "" && (pattern.None? || pattern.value == "" || regex(pattern.value, value.value))
  }

  predicate Grants(regex: Regex, item: Permission, resource: Resource, action: Action, value: Option<string>) {
    action in item.actions && (resource in EXEMPT || ValueMatches(regex, item.value, value))
  }

  function IsPermitted(regex: Regex, roles: Option<Index>, resource: Resource, actions: seq<Action>, cluster: string,
                       value: Option<string>, rbac: bool): bool {
    if !rbac then true
    else if roles.None? || roles.value == map[] then false
    else if cluster !in roles.value then false
    else if resource !in roles.value[cluster] then false
    else
      var items := roles.value[cluster][resource];
      forall action :: action in actions ==>
        exists item :: item in items && Grants(regex, item, resource, action, value)
  }

  function IsPermittedToCreate(roles: Option<Index>, resource: Resource, cluster: string, rbac: bool): bool {
    if !rbac then true
    else if roles.None? || roles.value == map[] then false
    else if cluster !in roles.value then false
    else if resource !in roles.value[cluster] then false
    else exists item :: item in roles.value[cluster][resource] && Create in item.actions
  }

  lemma Present(index: Index, data: seq<Permission>, cluster: string, resource: Resource)
    requires IndexOf(index, data)
    ensures (cluster in index && resource in index[cluster]) <==>
      exists item :: item in data && Concerns(item, cluster, resource)
    ensures cluster in index && resource in index[cluster] ==>
      forall x :: x in index[cluster][resource] <==> x in data && Concerns(x, cluster, resource)
  {
    MatchingAre(data, cluster, resource);
    var found := Matching(data, cluster, resource);
    assert Entries(index, cluster, resource) == found;
    if found != [] {
      assert found[0] in found;
    }
  }

  /** The item allows the action: names do not count for five resources, and otherwise a name must be given and be found
      by the item's expression, if it has one. */
  predicate Allows(regex: Regex, item: Permission, cluster: string, resource: Resource, action: Action,
      value: Option<string>) {
    && cluster in item.clusters && item.resource == resource && action in item.actions
    && match resource {
         case Ksql => true
         case ClusterConfig => true
         case ApplicationConfig => true
         case Acl => true
         case Audit => true
         case _ =>
           && value.Some? && value.value != ""
           && match item.value { case None => true case Some(p) => p == "" || regex(p, value.value) }
       }
  }

  lemma AllowsIsGranted(regex: Regex, item: Permission, cluster: string, resource: Resource, action: Action,
      value: Option<string>)
    ensures Allows(regex, item, cluster, resource, action, value) <==>
      Concerns(item, cluster, resource) && Grants(regex, item, resource, action, value)
  {
  }

  /** With access control on, the check through the index is the scan of the list: some item concerns the cluster and
      the resource, and every action is granted by an item that does. */
  lemma PermittedIffScan(regex: Regex, index: Index, data: seq<Permission>, resource: Resource, actions: seq<Action>,
                         cluster: string, value: Option<string>)
    requires IndexOf(index, data)
    ensures IsPermitted(regex, Some(index), resource, actions, cluster, value, true) <==>
      (exists item :: item in data && cluster in item.clusters && item.resource == resource) &&
      forall action :: action in actions ==>
        exists item :: item in data && Allows(regex, item, cluster, resource, action, value)
  {
    forall item, action
      ensures Allows(regex, item, cluster, resource, action, value) <==>
        Concerns(item, cluster, resource) && Grants(regex, item, resource, action, value)
    {
      AllowsIsGranted(regex, item, cluster, resource, action, value);
    }
    Present(index, data, cluster, resource);
  }

  lemma CreateIffScan(index: Index, data: seq<Permission>, resource: Resource, cluster: string)
    requires IndexOf(index, data)
    ensures IsPermittedToCreate(Some(index), resource, cluster, true) <==>
      exists item :: item in data && Concerns(item, cluster, resource) && Create in item.actions
  {
    Present(index, data, cluster, resource);
  }

  /** Another role never takes a permission away, and the order of the roles does not matter. */
  lemma MoreRolesPermitMore(regex: Regex, index: Index, data: seq<Permission>, more: Index, moreData: seq<Permission>,
                            resource: Resource, actions: seq<Action>, cluster: string, value: Option<string>)
    requires IndexOf(index, data) && IndexOf(more, moreData)
    requires forall item :: item in data ==> item in moreData
    requires IsPermitted(regex, Some(index), resource, actions, cluster, value, true)
    ensures IsPermitted(regex, Some(more), resource, actions, cluster, value, true)
  {
    PermittedIffScan(regex, index, data, resource, actions, cluster, value);
    PermittedIffScan(regex, more, moreData, resource, actions, cluster, value);
  }

  /** The permission to create some resource, where names do not count, is weaker than the permission to create a
      named one; the two agree exactly on the exempt resources and where a creating item accepts the name. */
  lemma CreateIsWeaker(regex: Regex, index: Index, data: seq<Permission>, resource: Resource, cluster: string,
      value: Option<string>)
    requires IndexOf(index, data)
    ensures IsPermitted(regex, Some(index), resource, [Create], cluster, value, true) ==>
      IsPermittedToCreate(Some(index), resource, cluster, true)
    ensures IsPermittedToCreate(Some(index), resource, cluster, true) ==>
      (IsPermitted(regex, Some(index), resource, [Create], cluster, value, true) <==>
        resource in EXEMPT ||
        exists item ::
          item in data && Concerns(item, cluster, resource) && Create in item.actions &&
            ValueMatches(regex, item.value, value))
  {
    PermittedIffScan(regex, index, data, resource, [Create], cluster, value);
    CreateIffScan(index, data, resource, cluster);
    assert Create in [Create];
  }
}
