/**
 * The Drive folder-path resolver.  Photos of an entry are filed under
 * Family / Genus / Species / Stage below a configured root folder.  Each
 * folder is found or created once per (parent id, name) and its id is kept
 * in a cache that lives as long as the process; a cached folder is never
 * provisioned again.
 *
 * The remote call that creates a folder is abstract: it answers with a fresh
 * id made from the number of provisioning calls so far, and that number is
 * the counter `provisionCalls` of the cache object.
 */
module Drive {
  import opened TextUtil
  import opened Types

  const Unsorted: string := "__UNSORTED__"
  const Unnamed: string := "__UNNAMED__"

  /** The characters a folder name may not contain. */
  predicate IsForbidden(c: char) {
    c == '\\' || c == '/' || c == '?' || c == '%' || c == '*' || c == ':' || c == '|' || c == '"' || c == '<' || c == '>'
  }

  /** `.replace(/[\\/?%*:|"<>]/g, '_')`. */
  function ReplaceForbidden(s: string): (r: string)
    ensures |r| == |s|
    ensures forall i :: 0 <= i < |s| ==> r[i] == if IsForbidden(s[i]) then '_' else s[i]
  {
    if s == [] then []
    else [if IsForbidden(s[0]) then '_' else s[0]] + ReplaceForbidden(s[1..])
  }

  /**
   * `sanitizeName`: trim, replace each forbidden character by `_`, and use
   * `__UNNAMED__` when nothing is left.
   */
  function SanitizeName(name: string): (r: string)
    ensures r != []
    ensures forall i :: 0 <= i < |r| ==> !IsForbidden(r[i])
    ensures Trim(name) == [] ==> r == Unnamed
    ensures Trim(name) != [] ==> r == ReplaceForbidden(Trim(name))
  {
    var t := ReplaceForbidden(Trim(name));
    UnnamedIsClean();
    ReplacedIsClean(Trim(name));
    if |t| == 0 then Unnamed else t
  }

  /** After the replacement no forbidden character is left. */
  lemma ReplacedIsClean(s: string)
    ensures forall i :: 0 <= i < |ReplaceForbidden(s)| ==> !IsForbidden(ReplaceForbidden(s)[i])
  {
    var r := ReplaceForbidden(s);
    forall i | 0 <= i < |r|
      ensures !IsForbidden(r[i])
    {
      assert r[i] == '_' || !IsForbidden(s[i]);
    }
  }

  /** The fallback name is free of forbidden characters. */
  lemma UnnamedIsClean()
    ensures forall i :: 0 <= i < |Unnamed| ==> !IsForbidden(Unnamed[i])
  {
    forall i | 0 <= i < |Unnamed|
      ensures !IsForbidden(Unnamed[i])
    {
      assert Unnamed[i] in {'_', 'U', 'N', 'A', 'M', 'E', 'D'};
    }
  }

  /** A name without forbidden characters and without whitespace at its ends is left as it is. */
  lemma SanitizeFixes(s: string)
    requires s != [] && !IsWhitespace(s[0]) && !IsWhitespace(s[|s| - 1])
    requires forall i :: 0 <= i < |s| ==> !IsForbidden(s[i])
    ensures SanitizeName(s) == s
  {
    TrimOfTrimmed(s);
  }

  /** Sanitizing twice is sanitizing once. */
  lemma SanitizeIdempotent(name: string)
    ensures SanitizeName(SanitizeName(name)) == SanitizeName(name)
  {
    if Trim(name) == [] {
      SanitizeKeepsSentinels();
    } else {
      SanitizedIsFixed(name);
    }
  }

  /** A name with text left after trimming sanitizes to a fixed point. */
  lemma SanitizedIsFixed(name: string)
    requires Trim(name) != []
    ensures SanitizeName(SanitizeName(name)) == SanitizeName(name)
  {
    var t := Trim(name);
    var r := ReplaceForbidden(t);
    assert SanitizeName(name) == r;
    ReplacedEnds(t);
    SanitizeFixes(r);
  }

  /** Replacing forbidden characters cannot put whitespace at either end. */
  lemma ReplacedEnds(t: string)
    requires t != [] && !IsWhitespace(t[0]) && !IsWhitespace(t[|t| - 1])
    ensures !IsWhitespace(ReplaceForbidden(t)[0]) && !IsWhitespace(ReplaceForbidden(t)[|t| - 1])
  {
    var r := ReplaceForbidden(t);
    assert !IsWhitespace('_');
    assert r[0] == '_' || r[0] == t[0];
    assert r[|t| - 1] == '_' || r[|t| - 1] == t[|t| - 1];
  }

  /** The two sentinel names pass through sanitizing unchanged. */
  lemma SanitizeKeepsSentinels()
    ensures SanitizeName(Unsorted) == Unsorted
    ensures SanitizeName(Unnamed) == Unnamed
  {
    UnsortedIsClean();
    UnnamedIsClean();
    assert Unsorted[0] == '_' == Unsorted[|Unsorted| - 1];
    assert Unnamed[0] == '_' == Unnamed[|Unnamed| - 1];
    assert !IsWhitespace('_');
    SanitizeFixes(Unsorted);
    SanitizeFixes(Unnamed);
  }

  /** The "unsorted" sentinel is free of forbidden characters. */
  lemma UnsortedIsClean()
    ensures forall i :: 0 <= i < |Unsorted| ==> !IsForbidden(Unsorted[i])
  {
    forall i | 0 <= i < |Unsorted|
      ensures !IsForbidden(Unsorted[i])
    {
      assert Unsorted[i] in {'_', 'U', 'N', 'S', 'O', 'R', 'T', 'E', 'D'};
    }
  }

  /** `${parentID}:${name}`, the cache key of a folder. */
  function CacheKey(parentId: string, name: string): string {
    parentId + ":" + name
  }

  predicate NoColon(s: string) {
    forall i :: 0 <= i < |s| ==> s[i] != ':'
  }

  /** For names without a colon, different (parent, name) pairs never share a cache key. */
  lemma CacheKeyInjective(p1: string, n1: string, p2: string, n2: string)
    requires NoColon(n1) && NoColon(n2)
    requires CacheKey(p1, n1) == CacheKey(p2, n2)
    ensures p1 == p2 && n1 == n2
  {
    var k := CacheKey(p1, n1);
    assert k == CacheKey(p2, n2);
    assert k[|p1|] == ':' && k[|p2|] == ':';
    assert |p1| == |p2|;
    assert n1 == k[|k| - |n1|..] == n2;
    assert p1 == k[..|p1|] == p2;
  }

  /** The id the abstract provisioning step hands out as its `n`-th answer. */
  function FreshId(n: nat): (id: string)
    ensures id != []
  {
    "folder_" + NatToString(n)
  }

  /** Distinct provisioning calls hand out distinct ids. */
  lemma FreshIdInjective(a: nat, b: nat)
    requires FreshId(a) == FreshId(b)
    ensures a == b
  {
    assert NatToString(a) == FreshId(a)[7..] == FreshId(b)[7..] == NatToString(b);
    ParseNatToString(a);
    ParseNatToString(b);
  }

  // ---------------------------------------------------------------------------
  // The path of an entry's stage folder

  /** A name a folder is cached under: not empty and without a colon, so its cache key is unambiguous. */
  predicate FolderName(s: string) {
    s != [] && NoColon(s)
  }

  /** `sanitizeName(entry.family || '__UNSORTED__')`: the sanitized family, `__UNSORTED__` when there is none. */
  function FamilySegment(e: MothEntry): (r: string)
    ensures FolderName(r)
    ensures e.family == "" ==> r == Unsorted
  {
    SanitizeKeepsSentinels();
    SanitizedNoColon(if e.family != "" then e.family else Unsorted);
    SanitizeName(if e.family != "" then e.family else Unsorted)
  }

  /** `entry.genus ? sanitizeName(entry.genus) : '__UNSORTED__'`. */
  function GenusSegment(e: MothEntry): (r: string)
    ensures FolderName(r)
    ensures e.genus == "" ==> r == Unsorted
  {
    UnsortedIsFolderName();
    SanitizedNoColon(e.genus);
    if e.genus != "" then SanitizeName(e.genus) else Unsorted
  }

  /** The formatted scientific name, sanitized, or `__UNSORTED__` when the entry has no species. */
  function SpeciesSegment(e: MothEntry): (r: string)
    ensures FolderName(r)
    ensures !Truthy(e.species) ==> r == Unsorted
  {
    UnsortedIsFolderName();
    SanitizedNoColon(FormatScientificName(e.genus, e.species, e.subspecies));
    if Truthy(e.species) then SanitizeName(FormatScientificName(e.genus, e.species, e.subspecies)) else Unsorted
  }

  lemma UnsortedIsFolderName()
    ensures FolderName(Unsorted)
  {
    UnsortedIsClean();
  }

  /** The stage folder name is a legal folder name. */
  lemma StageIsFolderName(stage: MothStage)
    ensures FolderName(StageName(stage))
  {
    match stage
    case Egg =>
    case Larva =>
    case Pupa =>
    case Adult =>
  }

  /** The four folder names, root first: family, genus, species and stage. */
  function Segments(e: MothEntry, stage: MothStage): (names: seq<string>)
    ensures |names| == 4
  {
    [FamilySegment(e), GenusSegment(e), SpeciesSegment(e), StageName(stage)]
  }

  /** Each of the four folder names of an entry's stage can be cached unambiguously. */
  lemma SegmentsAreFolderNames(e: MothEntry, stage: MothStage)
    ensures FolderName(Segments(e, stage)[0]) && FolderName(Segments(e, stage)[1])
    ensures FolderName(Segments(e, stage)[2]) && FolderName(Segments(e, stage)[3])
  {
    var f, g, s := FamilySegment(e), GenusSegment(e), SpeciesSegment(e);
    StageIsFolderName(stage);
    assert Segments(e, stage) == [f, g, s, StageName(stage)];
  }

  function DisplayPath(e: MothEntry, stage: MothStage): string {
    Join(Segments(e, stage), "/")
  }

  /** The display path is the four folder names joined by slashes. */
  lemma DisplayPathShape(e: MothEntry, stage: MothStage)
    ensures DisplayPath(e, stage)
         == FamilySegment(e) + "/" + GenusSegment(e) + "/" + SpeciesSegment(e) + "/" + StageName(stage)
  {
    JoinFour(FamilySegment(e), GenusSegment(e), SpeciesSegment(e), StageName(stage), "/");
  }

  /** An entry without a family is filed under a top folder `__UNSORTED__`. */
  lemma NoFamilyIsUnsorted(e: MothEntry, stage: MothStage)
    requires e.family == ""
    ensures Unsorted + "/" <= DisplayPath(e, stage)
  {
    DisplayPathShape(e, stage);
    SanitizeKeepsSentinels();
    var head := FamilySegment(e) + "/";
    assert head == Unsorted + "/";
    var p1 := head + GenusSegment(e);
    var p2 := p1 + "/";
    var p3 := p2 + SpeciesSegment(e);
    var p4 := p3 + "/";
    PrefixThroughAppend(head, GenusSegment(e), head);
    PrefixThroughAppend(p1, "/", head);
    PrefixThroughAppend(p2, SpeciesSegment(e), head);
    PrefixThroughAppend(p3, "/", head);
    PrefixThroughAppend(p4, StageName(stage), head);
  }

  lemma PrefixThroughAppend(a: string, b: string, p: string)
    requires p <= a
    ensures p <= a + b
  {
    assert (a + b)[..|p|] == a[..|p|];
  }

  lemma SanitizedNoColon(name: string)
    ensures NoColon(SanitizeName(name))
  {
    var r := SanitizeName(name);
    assert forall i :: 0 <= i < |r| ==> !IsForbidden(r[i]);
  }

  /** Following the cached ids from `parent` down `names`: the last folder's id, when every step is cached. */
  function CachedChain(cache: map<string, string>, parent: string, names: seq<string>): Option<string>
    decreases |names|
  {
    if names == [] then Some(parent)
    else
      var key := CacheKey(parent, names[0]);
      if key in cache then CachedChain(cache, cache[key], names[1..]) else None
  }

  /** The cache keys met following `names` down from `parent`, as far as the chain is cached. */
  function ChainKeys(cache: map<string, string>, parent: string, names: seq<string>): set<string>
    decreases |names|
  {
    if names == [] then {}
    else
      var key := CacheKey(parent, names[0]);
      {key} + if key in cache then ChainKeys(cache, cache[key], names[1..]) else {}
  }

  datatype FolderPath = FolderPath(folderId: string, displayPath: string)

  datatype PathError = RootNotConfigured

  datatype PathResult = Resolved(path: FolderPath) | PathFailed(error: PathError)

  /** `map` `small` is contained in `big`: every key of `small` keeps its value. */
  predicate Extends(big: map<string, string>, small: map<string, string>) {
    forall k :: k in small ==> k in big && big[k] == small[k]
  }

  /** The process-wide folder cache and the counter of provisioning calls made so far. */
  class FolderCache {
    var cache: map<string, string>
    var provisionCalls: nat

    /** Cached ids are non-empty, so a cached key always counts as a hit. */
    ghost predicate Valid()
      reads this
    {
      forall k :: k in cache ==> cache[k] != ""
    }

    constructor ()
      ensures Valid()
      ensures cache == map[] && provisionCalls == 0
    {
      cache := map[];
      provisionCalls := 0;
    }

    /** The remote "create folder" call: one more provisioning call, answering a fresh id. */
    method Provision() returns (id: string)
      modifies this`provisionCalls
      ensures id == FreshId(old(provisionCalls))
      ensures provisionCalls == old(provisionCalls) + 1
    {
      id := FreshId(provisionCalls);
      provisionCalls := provisionCalls + 1;
    }

    /**
     * `findOrCreateFolder`: a cached key answers its cached id without any
     * provisioning call; otherwise one call provisions the folder and its id
     * is stored under the key.  Existing entries never change.
     */
    method FindOrCreateFolder(parentId: string, name: string) returns (id: string)
      requires Valid()
      modifies this
      ensures Valid()
      ensures id != ""
      ensures CacheKey(parentId, name) in old(cache) ==>
        id == old(cache)[CacheKey(parentId, name)] && cache == old(cache) && provisionCalls == old(provisionCalls)
      ensures CacheKey(parentId, name) !in old(cache) ==>
        id == FreshId(old(provisionCalls)) && cache == old(cache)[CacheKey(parentId, name) := id]
        && provisionCalls == old(provisionCalls) + 1
      ensures Extends(cache, old(cache))
      ensures CacheKey(parentId, name) in cache && cache[CacheKey(parentId, name)] == id
    {
      var key := CacheKey(parentId, name);
      if key in cache && cache[key] != "" {
        return cache[key];
      }
      id := Provision();
      cache := cache[key := id];
    }

    /**
     * `ensureFolderPath`: with no root id, fails before any provisioning call;
     * otherwise resolves Family, Genus, Species and Stage folders, each the
     * child of the one before, and answers the Stage folder's id and the
     * slash-joined names.  A path already cached costs no provisioning call.
     */
    method EnsureFolderPath(rootId: string, entry: MothEntry, stage: MothStage) returns (r: PathResult)
      requires Valid()
      modifies this
      ensures Valid()
      ensures rootId == "" ==>
        (r == PathFailed(RootNotConfigured) && cache == old(cache) && provisionCalls == old(provisionCalls))
      ensures rootId != "" ==>
        (r.Resolved? && r.path.displayPath == DisplayPath(entry, stage)
         && CachedChain(cache, rootId, Segments(entry, stage)) == Some(r.path.folderId))
      ensures Extends(cache, old(cache))
      ensures forall k :: k in cache && k !in old(cache) ==> k in ChainKeys(cache, rootId, Segments(entry, stage))
      ensures provisionCalls - old(provisionCalls) == |cache| - |old(cache)| <= 4
      ensures rootId != "" && old(CachedChain(cache, rootId, Segments(entry, stage))).Some? ==>
        (cache == old(cache) && provisionCalls == old(provisionCalls)
         && r.path.folderId == old(CachedChain(cache, rootId, Segments(entry, stage))).value)
    {
      if rootId == "" {
        return PathFailed(RootNotConfigured);
      }
      var familyName := FamilySegment(entry);
      var genusName := GenusSegment(entry);
      var speciesName := SpeciesSegment(entry);
      var stageId := ResolveChain(rootId, [familyName, genusName, speciesName, StageName(stage)]);
      r := Resolved(FolderPath(stageId, familyName + "/" + genusName + "/" + speciesName + "/" + StageName(stage)));
      DisplayPathShape(entry, stage);
    }

    /**
     * The four folder steps of `ensureFolderPath`: each name is found or
     * created under the folder found for the name before it, starting at
     * the root.  A chain already cached costs nothing and answers its id.
     */
    method ResolveChain(rootId: string, names: seq<string>) returns (folderId: string)
      requires Valid()
      requires |names| == 4
      modifies this
      ensures Valid()
      ensures CachedChain(cache, rootId, names) == Some(folderId)
      ensures Extends(cache, old(cache))
      ensures forall k :: k in cache && k !in old(cache) ==> k in ChainKeys(cache, rootId, names)
      ensures provisionCalls - old(provisionCalls) == |cache| - |old(cache)| <= 4
      ensures old(CachedChain(cache, rootId, names)).Some? ==>
        cache == old(cache) && provisionCalls == old(provisionCalls)
        && folderId == old(CachedChain(cache, rootId, names)).value
    {
      assert names == [names[0]] + names[1..];
      assert names[1..] == [names[1]] + names[2..];
      assert names[2..] == [names[2]] + names[3..];
      assert names[3..] == [names[3]] + [];
      ghost var c0 := cache;
      var familyId := Descend(rootId, names[0], names[1..]);
      ghost var c1 := cache;
      var genusId := Descend(familyId, names[1], names[2..]);
      ghost var c2 := cache;
      var speciesId := Descend(genusId, names[2], names[3..]);
      ghost var c3 := cache;
      folderId := Descend(speciesId, names[3], []);
      ChainOfFour(cache, rootId, names, familyId, genusId, speciesId, folderId);
      NewKeysOfFour(c0, c1, c2, c3, cache, CacheKey(rootId, names[0]), CacheKey(familyId, names[1]),
                    CacheKey(genusId, names[2]), CacheKey(speciesId, names[3]));
    }

    /**
     * One level of `ensureFolderPath`: finds or creates `name` under
     * `parent`.  When the chain of `name` and the `rest` below it is already
     * cached, nothing changes and the walk continues from the cached id.
     */
    method Descend(parent: string, name: string, ghost rest: seq<string>) returns (id: string)
      requires Valid()
      modifies this
      ensures Valid()
      ensures CacheKey(parent, name) in cache && cache[CacheKey(parent, name)] == id
      ensures Extends(cache, old(cache))
      ensures forall k :: k in cache && k !in old(cache) ==> k == CacheKey(parent, name)
      ensures provisionCalls - old(provisionCalls) == |cache| - |old(cache)| <= 1
      ensures old(CachedChain(cache, parent, [name] + rest)).Some? ==>
        cache == old(cache) && provisionCalls == old(provisionCalls)
        && CachedChain(cache, id, rest) == old(CachedChain(cache, parent, [name] + rest))
    {
      ghost var names := [name] + rest;
      assert names[0] == name && names[1..] == rest;
      if CachedChain(cache, parent, names).Some? {
        ChainUnfold(cache, parent, names);
      }
      id := FindOrCreateFolder(parent, name);
    }
  }

  /** One step of a cached chain: the first name is cached, and the rest of the chain continues from its id. */
  lemma ChainUnfold(cache: map<string, string>, parent: string, names: seq<string>)
    requires names != [] && CachedChain(cache, parent, names).Some?
    ensures CacheKey(parent, names[0]) in cache
    ensures CachedChain(cache, cache[CacheKey(parent, names[0])], names[1..]) == CachedChain(cache, parent, names)
  {
  }

  /** Four steps that each add at most their own key add no key but those four. */
  lemma NewKeysOfFour(c0: map<string, string>, c1: map<string, string>, c2: map<string, string>,
                      c3: map<string, string>, c4: map<string, string>, k1: string, k2: string, k3: string, k4: string)
    requires forall k :: k in c1 && k !in c0 ==> k == k1
    requires forall k :: k in c2 && k !in c1 ==> k == k2
    requires forall k :: k in c3 && k !in c2 ==> k == k3
    requires forall k :: k in c4 && k !in c3 ==> k == k4
    requires Extends(c1, c0) && Extends(c2, c1) && Extends(c3, c2)
    ensures forall k :: k in c4 && k !in c0 ==> k in {k1, k2, k3, k4}
  {
  }

  /** Four cached links make a cached chain of four names. */
  lemma ChainOfFour(cache: map<string, string>, root: string, names: seq<string>, f: string, g: string, s: string, t: string)
    requires |names| == 4
    requires CacheKey(root, names[0]) in cache && cache[CacheKey(root, names[0])] == f
    requires CacheKey(f, names[1]) in cache && cache[CacheKey(f, names[1])] == g
    requires CacheKey(g, names[2]) in cache && cache[CacheKey(g, names[2])] == s
    requires CacheKey(s, names[3]) in cache && cache[CacheKey(s, names[3])] == t
    ensures CachedChain(cache, root, names) == Some(t)
    ensures ChainKeys(cache, root, names)
         == {CacheKey(root, names[0]), CacheKey(f, names[1]), CacheKey(g, names[2]), CacheKey(s, names[3])}
  {
    var n1 := names[1..];
    var n2 := n1[1..];
    var n3 := n2[1..];
    assert n3[1..] == [];
    assert CachedChain(cache, s, n3) == Some(t);
    assert CachedChain(cache, g, n2) == Some(t);
    assert CachedChain(cache, f, n1) == Some(t);
    assert ChainKeys(cache, t, n3[1..]) == {};
    assert ChainKeys(cache, s, n3) == {CacheKey(s, names[3])};
    assert ChainKeys(cache, g, n2) == {CacheKey(g, names[2]), CacheKey(s, names[3])};
  }
}
