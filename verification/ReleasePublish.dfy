/** Publishing a release through a remote that is only seen through its listings (scripts/releasepublish/main.go). */
module ReleasePublish {
  import opened Wrappers
  import Decimal

  datatype Asset = Asset(name: string, digest: string)

  datatype Release = Release(tag: string, draft: bool, prerelease: bool, assets: seq<Asset>)

  /** One command sent to the remote, and its answer. */
  datatype Step =
    | Listed(tag: string, shown: Option<Option<Release>>)   // the tag's release; None: no listing came
    | Created(tag: string, title: string, notesFile: string, ok: bool)
    | MarkedDraft(tag: string, title: string, notesFile: string, ok: bool)
    | Uploaded(tag: string, names: set<string>, ok: bool)
    | MadePublic(tag: string, ok: bool)

  datatype Options = Options(tag: string, title: string, notesFile: string)

  predicate Changes(s: Step) {
    !s.Listed?
  }

  datatype PublishError =
    | BadTag | MissingOptions | BadAssets | NotListed | PrereleaseExists | AssetsDiffer
    | NotCreated | NotEdited | NotUploaded | NotDraft | NotPublished | NotPublic

  // ---------- Finding the release in a listing ----------

  function Flat(pages: seq<seq<Release>>): seq<Release> {
    if pages == [] then [] else Flat(pages[..|pages| - 1]) + pages[|pages| - 1]
  }

  /** `found` is the first release with the tag. */
  predicate IsFirst(releases: seq<Release>, tag: string, found: Option<Release>) {
    match found
    case None => forall i :: 0 <= i < |releases| ==> releases[i].tag != tag
    case Some(r) =>
      exists k :: 0 <= k < |releases| && releases[k] == r && r.tag == tag && forall i :: 0 <= i < k ==>
        releases[i].tag != tag
  }

  function First(releases: seq<Release>, tag: string): (found: Option<Release>)
    ensures IsFirst(releases, tag, found)
  {
    if releases == [] then None
    else
      var last, front := releases[|releases| - 1], First(releases[..|releases| - 1], tag);
      if front.Some? then
        assert releases == releases[..|releases| - 1] + [last];
        front
      else if last.tag == tag then Some(last)
      else None
  }

  lemma {:induction false} FirstOfParts(a: seq<Release>, b: seq<Release>, tag: string)
    ensures First(a + b, tag) == if First(a, tag).Some? then First(a, tag) else First(b, tag)
  {
    if b == [] {
      assert a + b == a;
    } else {
      FirstOfParts(a, b[..|b| - 1], tag);
      assert (a + b)[..|a + b| - 1] == a + b[..|b| - 1];
    }
  }

  // ---------- Checking the assets ----------

  /** The remote assets are the local ones. */
  predicate Matches(local: map<string, string>, assets: seq<Asset>) {
    && |assets| == |local|
    && (forall i :: 0 <= i < |assets| ==> assets[i].name in local && assets[i].digest == local[assets[i].name])
    && (forall i, j :: 0 <= i < j < |assets| ==> assets[i].name != assets[j].name)
  }

  function LocalSet(local: map<string, string>): set<Asset> {
    set name | name in local :: Asset(name, local[name])
  }

  function AssetSet(assets: seq<Asset>): set<Asset> {
    set a | a in assets
  }

  lemma {:induction false} LocalSetSize(local: map<string, string>)
    ensures |LocalSet(local)| == |local|
    decreases |local|
  {
    if local != map[] {
      var name :| name in local;
      var rest := local - {name};
      LocalSetSize(rest);
      assert forall a :: a in LocalSet(local) <==> a.name in local && a.digest == local[a.name];
      assert forall a :: a in LocalSet(rest) <==> a.name in rest && a.digest == local[a.name];
      assert LocalSet(local) == LocalSet(rest) + {Asset(name, local[name])};
      assert |local| == |rest| + 1 by {
        assert local.Keys == rest.Keys + {name};
      }
    }
  }

  lemma {:induction false} DistinctSize(assets: seq<Asset>)
    requires forall i, j :: 0 <= i < j < |assets| ==> assets[i] != assets[j]
    ensures |AssetSet(assets)| == |assets| && multiset(assets) == multiset(AssetSet(assets))
  {
    if assets == [] {
      assert AssetSet(assets) == {};
    } else {
      var front, last := assets[..|assets| - 1], assets[|assets| - 1];
      DistinctSize(front);
      assert assets == front + [last];
      assert last !in AssetSet(front);
      assert AssetSet(assets) == AssetSet(front) + {last};
      assert multiset(AssetSet(assets)) == multiset(AssetSet(front)) + multiset{last};
    }
  }

  lemma SubsetOfSameSize<T>(a: set<T>, b: set<T>)
    requires a <= b && |a| == |b|
    ensures a == b
  {
    assert b == a + (b - a) && |b - a| == |b| - |a|;
  }

  /** Equal counts, no duplicates and inclusion leave no room for a missing asset: the check accepts exactly the
      permutations of the local assets. */
  lemma MatchesIffPermutation(local: map<string, string>, assets: seq<Asset>)
    ensures Matches(local, assets) <==> multiset(assets) == multiset(LocalSet(local))
  {
    LocalSetSize(local);
    var l := LocalSet(local);
    if Matches(local, assets) {
      DistinctSize(assets);
      SubsetOfSameSize(AssetSet(assets), l);
    } else if multiset(assets) == multiset(l) {
      assert |multiset(assets)| == |assets| && |multiset(l)| == |l|;
      forall i | 0 <= i < |assets|
        ensures assets[i] in l
      {
        assert assets[i] in multiset(assets);
      }
      forall i, j | 0 <= i < j < |assets|
        ensures assets[i].name != assets[j].name
      {
        assert multiset(l)[assets[i]] <= 1;
        if assets[i].name == assets[j].name {
          TwiceInMultiset(assets, i, j);
        }
      }
    }
  }

  lemma TwiceInMultiset(assets: seq<Asset>, i: nat, j: nat)
    requires i < j < |assets| && assets[i] == assets[j]
    ensures multiset(assets)[assets[i]] >= 2
  {
    assert assets == assets[..i] + [assets[i]] + assets[i + 1..j] + [assets[j]] + assets[j + 1..];
  }

  method VerifyAssets(local: map<string, string>, assets: seq<Asset>) returns (ok: bool)
    ensures ok <==> Matches(local, assets)
  {
    if |assets| != |local| {
      return false;
    }
    var seen: set<string> := {};
    for i := 0 to |assets|
      invariant seen == set k | 0 <= k < i :: assets[k].name
      invariant forall k :: 0 <= k < i ==> assets[k].name in local && assets[k].digest == local[assets[k].name]
      invariant forall j, k :: 0 <= j < k < i ==> assets[j].name != assets[k].name
    {
      var asset := assets[i];
      if asset.name !in local {
        return false;
      }
      if asset.name in seen {
        return false;
      }
      seen := seen + {asset.name};
      if asset.digest != local[asset.name] {
        return false;
      }
    }
    return true;
  }

  // ---------- Local assets ----------

  datatype DirEntry = DirEntry(name: string, regular: bool, content: Option<nat>, digest: string)

  predicate Usable(e: DirEntry) {
    e.regular && e.content.Some? && e.content.value > 0
  }

  method LocalAssets(entries: seq<DirEntry>) returns (local: Option<map<string, string>>)
    ensures local.Some? <==> entries != [] && forall i :: 0 <= i < |entries| ==> Usable(entries[i])
    ensures local.Some? ==> local.value.Keys == set i | 0 <= i < |entries| :: entries[i].name
    ensures local.Some? && (forall i, j :: 0 <= i < j < |entries| ==> entries[i].name != entries[j].name) ==>
              forall i :: 0 <= i < |entries| ==>
                entries[i].name in local.value && local.value[entries[i].name] == entries[i].digest
  {
    var digests := map[];
    for i := 0 to |entries|
      invariant forall k :: 0 <= k < i ==> Usable(entries[k])
      invariant digests.Keys == set k | 0 <= k < i :: entries[k].name
      invariant (forall j, k :: 0 <= j < k < |entries| ==> entries[j].name != entries[k].name) ==>
                  forall k :: 0 <= k < i ==> entries[k].name in digests && digests[entries[k].name] == entries[k].digest
    {
      var e := entries[i];
      if !e.regular || e.content.None? || e.content.value == 0 {
        return None;
      }
      digests := digests[e.name := e.digest];
    }
    if entries == [] {
      return None;
    }
    return Some(digests);
  }

  // ---------- The tag ----------

  predicate DigitsOnly(s: string) {
    forall i :: 0 <= i < |s| ==> '0' <= s[i] <= '9'
  }

  predicate VersionNumber(s: string) {
    s != "" && DigitsOnly(s) && (s[0] == '0' ==> |s| == 1)
  }

  predicate DotsAt(tag: string, i: nat, j: nat) {
    && 0 < i < j < |tag| && tag[0] == 'v' && tag[i] == '.' && tag[j] == '.'
    && VersionNumber(tag[1..i]) && VersionNumber(tag[i + 1..j]) && VersionNumber(tag[j + 1..])
  }

  /** vX.Y.Z without leading zeros. */
  predicate SafeTag(tag: string) {
    exists i: nat, j: nat :: i < |tag| && j < |tag| && DotsAt(tag, i, j)
  }

  /** The tag of a version, written out. */
  function TagOf(major: nat, minor: nat, patch: nat): string {
    "v" + Decimal.Show(major) + "." + Decimal.Show(minor) + "." + Decimal.Show(patch)
  }

  lemma NumberIsShown(s: string)
    requires VersionNumber(s)
    ensures exists n :: s == Decimal.Show(n)
  {
    Decimal.ShowOfValue(s);
  }

  lemma Split(tag: string, i: nat, j: nat)
    requires i < |tag| && j < |tag| && DotsAt(tag, i, j)
    ensures tag == "v" + tag[1..i] + "." + tag[i + 1..j] + "." + tag[j + 1..]
  {
  }

  lemma Joined(x: string, y: string, z: string, tag: string)
    requires VersionNumber(x) && VersionNumber(y) && VersionNumber(z) && tag == "v" + x + "." + y + "." + z
    ensures SafeTag(tag)
  {
    var i := 1 + |x|;
    var j := i + 1 + |y|;
    assert tag[1..i] == x && tag[i + 1..j] == y && tag[j + 1..] == z;
    assert DotsAt(tag, i, j);
  }

  lemma SafeIsVersion(tag: string)
    requires SafeTag(tag)
    ensures exists major, minor, patch :: tag == TagOf(major, minor, patch)
  {
    var i: nat, j: nat :| i < |tag| && j < |tag| && DotsAt(tag, i, j);
    NumberIsShown(tag[1..i]);
    NumberIsShown(tag[i + 1..j]);
    NumberIsShown(tag[j + 1..]);
    Split(tag, i, j);
    var major :| tag[1..i] == Decimal.Show(major);
    var minor :| tag[i + 1..j] == Decimal.Show(minor);
    var patch :| tag[j + 1..] == Decimal.Show(patch);
    assert tag == TagOf(major, minor, patch);
  }

  /** A tag is safe exactly when it is written so. */
  lemma SafeTagIsVersion(tag: string)
    ensures SafeTag(tag) <==> exists major, minor, patch :: tag == TagOf(major, minor, patch)
  {
    if SafeTag(tag) {
      SafeIsVersion(tag);
    }
    if major, minor, patch :| tag == TagOf(major, minor, patch) {
      Joined(Decimal.Show(major), Decimal.Show(minor), Decimal.Show(patch), tag);
    }
  }

  // ---------- The protocol ----------

  /** Everything the remote was asked, and everything it answered. Its answers are its own. */
  class Remote {
    ghost var trace: seq<Step>

    constructor ()
      ensures trace == []
    {
      trace := [];
    }

    /** Only the release the caller looks for is recorded. */
    method List(tag: string) returns (pages: Option<seq<seq<Release>>>)
      modifies this
      ensures |trace| == |old(trace)| + 1 && trace[..|old(trace)|] == old(trace)
      ensures trace[|old(trace)|] == Listed(tag, if pages.None? then None else Some(First(Flat(pages.value), tag)))
    {
      pages :| true;
      trace := trace + [Listed(tag, if pages.None? then None else Some(First(Flat(pages.value), tag)))];
    }

    method Create(tag: string, title: string, notesFile: string) returns (ok: bool)
      modifies this
      ensures trace == old(trace) + [Created(tag, title, notesFile, ok)]
    {
      ok := *;
      trace := trace + [Created(tag, title, notesFile, ok)];
    }

    method MarkDraft(tag: string, title: string, notesFile: string) returns (ok: bool)
      modifies this
      ensures trace == old(trace) + [MarkedDraft(tag, title, notesFile, ok)]
    {
      ok := *;
      trace := trace + [MarkedDraft(tag, title, notesFile, ok)];
    }

    method Upload(tag: string, names: set<string>) returns (ok: bool)
      modifies this
      ensures trace == old(trace) + [Uploaded(tag, names, ok)]
    {
      ok := *;
      trace := trace + [Uploaded(tag, names, ok)];
    }

    method MakePublic(tag: string) returns (ok: bool)
      modifies this
      ensures trace == old(trace) + [MadePublic(tag, ok)]
    {
      ok := *;
      trace := trace + [MadePublic(tag, ok)];
    }
  }

  method Find(pages: seq<seq<Release>>, tag: string) returns (found: Option<Release>)
    ensures found == First(Flat(pages), tag)
  {
    for p := 0 to |pages|
      invariant First(Flat(pages[..p]), tag).None?
    {
      found := FindOnPage(pages[p], tag);
      assert pages[..p + 1][..p] == pages[..p];
      FirstOfParts(Flat(pages[..p]), pages[p], tag);
      if found.Some? {
        FlatFirst(pages, p + 1, tag);
        return;
      }
    }
    assert pages[..|pages|] == pages;
    return None;
  }

  method FindOnPage(page: seq<Release>, tag: string) returns (found: Option<Release>)
    ensures found == First(page, tag)
  {
    for i := 0 to |page|
      invariant First(page[..i], tag).None?
    {
      assert page[..i + 1][..i] == page[..i];
      if page[i].tag == tag {
        FirstOfParts(page[..i + 1], page[i + 1..], tag);
        assert page == page[..i + 1] + page[i + 1..];
        return Some(page[i]);
      }
    }
    assert page[..|page|] == page;
    return None;
  }

  method GetRelease(remote: Remote, tag: string) returns (found: Option<Option<Release>>)
    modifies remote
    ensures remote.trace == old(remote.trace) + [Listed(tag, found)]
  {
    var pages := remote.List(tag);
    if pages.None? {
      return None;
    }
    var release := Find(pages.value, tag);
    return Some(release);
  }

  lemma {:induction false} FlatFirst(pages: seq<seq<Release>>, p: nat, tag: string)
    requires p <= |pages| && First(Flat(pages[..p]), tag).Some?
    ensures First(Flat(pages), tag) == First(Flat(pages[..p]), tag)
    decreases |pages| - p
  {
    if p == |pages| {
      assert pages[..p] == pages;
    } else {
      FirstOfParts(Flat(pages[..p]), pages[p], tag);
      assert pages[..p + 1][..p] == pages[..p];
      FlatFirst(pages, p + 1, tag);
    }
  }

  predicate Shows(s: Step) {
    s.Listed? && s.shown.Some? && s.shown.value.Some?
  }

  predicate ShownDraft(s: Step) {
    Shows(s) && s.shown.value.value.draft
  }

  predicate ShownPublic(s: Step) {
    Shows(s) && !s.shown.value.value.draft
  }

  predicate ShownMatching(s: Step, local: map<string, string>) {
    Shows(s) && Matches(local, s.shown.value.value.assets)
  }

  predicate Final(s: Step, local: map<string, string>)
    requires Shows(s)
  {
    !s.shown.value.value.prerelease && multiset(s.shown.value.value.assets) == multiset(LocalSet(local))
  }

  /** The commands of a run: list; create or edit the draft; upload; list; publish; list. Each is sent exactly
      when the answers so far call for it, and each concerns the tag and the assets given. */
  predicate Follows(t: seq<Step>, opts: Options, local: map<string, string>, error: Option<PublishError>) {
    && 1 <= |t| <= 6 && t[0].Listed? && (forall k :: 0 <= k < |t| ==> t[k].tag == opts.tag)
    && (|t| > 1 <==> t[0].shown.Some? && !ShownPublic(t[0]))
    && (|t| > 1 ==> if ShownDraft(t[0]) then t[1].MarkedDraft? else t[1].Created?)
    && (|t| > 1 ==> t[1].title == opts.title && t[1].notesFile == opts.notesFile && (|t| > 2 <==> t[1].ok))
    && (|t| > 2 ==> t[2].Uploaded? && t[2].names == local.Keys && (|t| > 3 <==> t[2].ok))
    && (|t| > 3 ==> t[3].Listed? && (|t| > 4 <==> ShownDraft(t[3]) && ShownMatching(t[3], local)))
    && (|t| > 4 ==> t[4].MadePublic? && (|t| > 5 <==> t[4].ok))
    && (|t| > 5 ==> t[5].Listed?)
    && Tells(t, local, error)
  }

  /** The error names what the run ended with; there is none exactly when that was the public, final release with the
      local assets. */
  predicate Tells(t: seq<Step>, local: map<string, string>, error: Option<PublishError>)
    requires t != []
  {
    var last := t[|t| - 1];
    match last
    case Created(_, _, _, _) => error == Some(NotCreated)
    case MarkedDraft(_, _, _, _) => error == Some(NotEdited)
    case Uploaded(_, _, _) => error == Some(NotUploaded)
    case MadePublic(_, _) => error == Some(NotPublished)
    case Listed(_, None) => error == Some(NotListed)
    case Listed(_, Some(found)) =>
      if |t| == 4 && !ShownDraft(last) then error == Some(NotDraft)
      else if |t| == 4 then error == Some(AssetsDiffer)
      else if |t| == 1 && found.Some? && found.value.prerelease then error == Some(PrereleaseExists)
      else if |t| > 1 && (!ShownPublic(last) || found.value.prerelease) then error == Some(NotPublic)
      else error == if ShownMatching(last, local) then None else Some(AssetsDiffer)
  }

  method Publish(remote: Remote, tag: string, title: string, notesFile: string, entries: seq<DirEntry>)
    returns (error: Option<PublishError>, ghost local: map<string, string>)
    requires remote.trace == []
    modifies remote
    ensures remote.trace == [] ==> error.Some?
    ensures remote.trace == [] ==>
              error == Some(if !SafeTag(tag) then BadTag
                            else if title == "" || notesFile == "" then MissingOptions else BadAssets)
    ensures remote.trace != [] ==> SafeTag(tag) && Follows(remote.trace, Options(tag, title, notesFile), local, error)
    ensures remote.trace != [] ==> local.Keys == set i | 0 <= i < |entries| :: entries[i].name
    ensures remote.trace != [] && (forall i, j :: 0 <= i < j < |entries| ==> entries[i].name != entries[j].name) ==>
              forall i :: 0 <= i < |entries| ==> entries[i].name in local && local[entries[i].name] == entries[i].digest
    ensures remote.trace != [] <==>
              SafeTag(tag) && title != "" && notesFile != "" && entries != [] &&
              forall i :: 0 <= i < |entries| ==> Usable(entries[i])
  {
    local := map[];
    if !SafeTag(tag) {
      return Some(BadTag), local;
    }
    if title == "" || notesFile == "" {
      return Some(MissingOptions), local;
    }
    var assets := LocalAssets(entries);
    if assets.None? {
      return Some(BadAssets), local;
    }
    local := assets.value;
    error := PublishAssets(remote, Options(tag, title, notesFile), assets.value);
  }

  method PublishAssets(remote: Remote, opts: Options, local: map<string, string>) returns (error: Option<PublishError>)
    requires remote.trace == []
    modifies remote
    ensures Follows(remote.trace, opts, local, error)
  {
    var state := GetRelease(remote, opts.tag);
    if state.None? {
      return Some(NotListed);
    }
    if state.value.Some? && !state.value.value.draft {
      if state.value.value.prerelease {
        return Some(PrereleaseExists);
      }
      var same := VerifyAssets(local, state.value.value.assets);
      return if same then None else Some(AssetsDiffer);
    }
    var ok;
    if state.value.None? {
      ok := remote.Create(opts.tag, opts.title, opts.notesFile);
      if !ok {
        return Some(NotCreated);
      }
    } else {
      ok := remote.MarkDraft(opts.tag, opts.title, opts.notesFile);
      if !ok {
        return Some(NotEdited);
      }
    }
    error := PublishDraft(remote, opts, local);
  }

  /** The draft was created or edited. */
  predicate Drafted(t: seq<Step>, opts: Options) {
    && |t| == 2 && t[0].Listed? && t[0].tag == opts.tag && t[0].shown.Some? && !ShownPublic(t[0])
    && t[1] ==
       if ShownDraft(t[0]) then MarkedDraft(opts.tag, opts.title, opts.notesFile, true)
       else Created(opts.tag, opts.title, opts.notesFile, true)
  }

  method PublishDraft(remote: Remote, opts: Options, local: map<string, string>) returns (error: Option<PublishError>)
    requires Drafted(remote.trace, opts)
    modifies remote
    ensures Follows(remote.trace, opts, local, error)
  {
    var ok := remote.Upload(opts.tag, local.Keys);
    if !ok {
      return Some(NotUploaded);
    }
    var state := GetRelease(remote, opts.tag);
    if state.None? {
      return Some(NotListed);
    }
    if state.value.None? || !state.value.value.draft {
      return Some(NotDraft);
    }
    var same := VerifyAssets(local, state.value.value.assets);
    if !same {
      return Some(AssetsDiffer);
    }
    ok := remote.MakePublic(opts.tag);
    if !ok {
      return Some(NotPublished);
    }
    state := GetRelease(remote, opts.tag);
    if state.None? {
      return Some(NotListed);
    }
    if state.value.None? || state.value.value.draft || state.value.value.prerelease {
      return Some(NotPublic);
    }
    same := VerifyAssets(local, state.value.value.assets);
    return if same then None else Some(AssetsDiffer);
  }

  /** Whatever the remote answers: a release that is already public is never touched; it is made public only
      right after a listing that showed it as a draft with exactly the local assets; and success means that the
      last thing seen was the public, final release with exactly the local assets. */
  lemma PublishingIsSafe(t: seq<Step>, opts: Options, local: map<string, string>, error: Option<PublishError>)
    requires Follows(t, opts, local, error)
    ensures ShownPublic(t[0]) ==> forall k :: 0 <= k < |t| ==> !Changes(t[k])
    ensures forall k :: 0 <= k < |t| && t[k].MadePublic? ==>
              0 < k && ShownDraft(t[k - 1]) && multiset(t[k - 1].shown.value.value.assets) == multiset(LocalSet(local))
    ensures error.None? <==> (|t| == 1 || |t| == 6) && ShownPublic(t[|t| - 1]) && Final(t[|t| - 1], local)
  {
    forall k | 0 <= k < |t| && Shows(t[k])
      ensures Matches(local, t[k].shown.value.value.assets) <==>
              multiset(t[k].shown.value.value.assets) == multiset(LocalSet(local))
    {
      MatchesIffPermutation(local, t[k].shown.value.value.assets);
    }
  }
}
