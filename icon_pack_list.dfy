/**
 * The icon packs the user applied, in priority order, and the cache of
 * packs loaded so far: reconciling the cache with a new list of pack names
 * (reusing loaded packs, loading and registering new ones, unregistering
 * dropped ones) and fetching one pack by name.
 */
module IconPackList {
  import IconPackImpl

  /** The package name of the default pack (the launcher's own icons). */
  const DEFAULT_PACK_NAME: string := ""
  /** The package name of the pack serving icons picked from files. */
  const URI_PACK_NAME: string := "lawnchairUriPack"

  /** An icon pack: the default pack, the file-icon pack, or an installed pack object. */
  datatype IconPack = DefaultPack | UriPack | ImplPack(pack: IconPackImpl.IconPackImpl)

  /** `packPackageName`. */
  function PackName(p: IconPack): string
  {
    match p
    case DefaultPack => DEFAULT_PACK_NAME
    case UriPack => URI_PACK_NAME
    case ImplPack(pack) => pack.packPackageName
  }

  /** What `loadPack(name)` yields for a name: the default pack for "", else an installed pack of that name. */
  predicate LoadedAs(name: string, p: IconPack)
  {
    if name == "" then p == DefaultPack else p.ImplPack? && p.pack.packPackageName == name
  }

  /** A loaded pack carries the name it was loaded under. */
  lemma LoadedAsNamed(name: string, p: IconPack)
    requires LoadedAs(name, p)
    ensures PackName(p) == name
  {
  }

  class IconPackList {
    /** The packs loaded so far, by package name. */
    var loadedPacks: map<string, IconPack>
    /** The applied packs, highest priority first. */
    var appliedPacks: seq<IconPack>
    /** The packages whose change receiver is registered. */
    var registered: set<string>

    /** Every cached pack is what loading its name yields, and exactly the cached installed packs are registered. */
    ghost predicate Valid()
      reads this
    {
      (forall k :: k in loadedPacks ==> LoadedAs(k, loadedPacks[k]))
      && forall k :: k in registered <==> k in loadedPacks && k != ""
    }

    /** The list starts by applying the saved pack names. */
    constructor (packs: seq<string>)
      ensures Valid()
      ensures forall k :: k in loadedPacks <==> k in packs
      ensures |appliedPacks| == |packs| && forall i :: 0 <= i < |packs| ==> appliedPacks[i] == loadedPacks[packs[i]]
    {
      loadedPacks := map[];
      appliedPacks := [];
      registered := {};
      new;
      OnPackListUpdated(packs);
    }

    /** `loadPack`: the default pack for an empty name, else a new installed pack object. */
    static method LoadPack(name: string) returns (p: IconPack)
      ensures LoadedAs(name, p) && (p.ImplPack? ==> fresh(p.pack))
    {
      if name != "" {
        var pack := new IconPackImpl.IconPackImpl(name);
        p := ImplPack(pack);
      } else {
        p := DefaultPack;
      }
    }

    /** `register` of a loaded pack: installed packs listen for changes to their package; the default pack does nothing. */
    method Register(p: IconPack)
      modifies this
      ensures registered == if p.ImplPack? then old(registered) + {p.pack.packPackageName} else old(registered)
      ensures loadedPacks == old(loadedPacks) && appliedPacks == old(appliedPacks)
    {
      if p.ImplPack? {
        registered := registered + {p.pack.packPackageName};
      }
    }

    /** `unregister` of a loaded pack. */
    method Unregister(p: IconPack)
      modifies this
      ensures registered == if p.ImplPack? then old(registered) - {p.pack.packPackageName} else old(registered)
      ensures loadedPacks == old(loadedPacks) && appliedPacks == old(appliedPacks)
    {
      if p.ImplPack? {
        registered := registered - {p.pack.packPackageName};
      }
    }

    /**
     * `onPackListUpdated`: unregister the loaded packs the new list drops,
     * then apply the packs in list order, reusing loaded ones and loading
     * and registering the others; the cache keeps exactly the listed names.
     */
    method OnPackListUpdated(packs: seq<string>)
      requires Valid()
      modifies this
      ensures Valid()
      ensures forall k :: k in loadedPacks <==> k in packs
      ensures |appliedPacks| == |packs| && forall i :: 0 <= i < |packs| ==> appliedPacks[i] == loadedPacks[packs[i]]
      ensures forall i :: 0 <= i < |packs| ==> PackName(appliedPacks[i]) == packs[i]
      ensures forall k :: k in packs && k in old(loadedPacks) ==> loadedPacks[k] == old(loadedPacks)[k]
      ensures forall k :: k in packs && k !in old(loadedPacks) && k != "" ==> loadedPacks[k].ImplPack? && fresh(loadedPacks[k].pack)
      ensures forall k :: k in registered <==> k in packs && k != ""
    {
      UnregisterDropped(packs);
      appliedPacks := [];
      var newPacks := ApplyPacks(packs);
      loadedPacks := newPacks;
      forall j | 0 <= j < |packs|
        ensures PackName(appliedPacks[j]) == packs[j]
      {
        LoadedAsNamed(packs[j], appliedPacks[j]);
      }
    }

    /** The first pass of `onPackListUpdated`: unregister each loaded pack whose name the new list lacks. */
    method UnregisterDropped(packs: seq<string>)
      requires Valid()
      modifies this
      ensures loadedPacks == old(loadedPacks) && appliedPacks == old(appliedPacks)
      ensures forall k :: k in registered <==> k in loadedPacks && k != "" && k in packs
    {
      var rest := loadedPacks.Keys;
      while rest != {}
        invariant rest <= loadedPacks.Keys && loadedPacks == old(loadedPacks) && appliedPacks == old(appliedPacks)
        invariant forall k :: k in registered <==> k in loadedPacks && k != "" && (k in rest || k in packs)
        decreases rest
      {
        var k :| k in rest;
        LoadedAsNamed(k, loadedPacks[k]);
        if PackName(loadedPacks[k]) !in packs {
          Unregister(loadedPacks[k]);
        }
        rest := rest - {k};
      }
    }

    /**
     * The second pass of `onPackListUpdated`: append each listed pack to the
     * applied packs, loading, registering and caching the ones not loaded yet;
     * the result maps exactly the listed names to their packs.
     */
    method ApplyPacks(packs: seq<string>) returns (newPacks: map<string, IconPack>)
      requires forall k :: k in loadedPacks ==> LoadedAs(k, loadedPacks[k])
      requires forall k :: k in registered <==> k in loadedPacks && k != "" && k in packs
      modifies this
      ensures forall k :: k in newPacks <==> k in packs
      ensures forall k :: k in newPacks ==> LoadedAs(k, newPacks[k])
      ensures forall k :: k in packs && k in old(loadedPacks) ==> newPacks[k] == old(loadedPacks)[k]
      ensures forall k :: k in packs && k !in old(loadedPacks) && k != "" ==> newPacks[k].ImplPack? && fresh(newPacks[k].pack)
      ensures forall k :: k in registered <==> k in packs && k != ""
      ensures |appliedPacks| == |packs| && forall j :: 0 <= j < |packs| ==> appliedPacks[j] == newPacks[packs[j]]
    {
      newPacks := map[];
      var applied := [];
      var i := 0;
      ghost var seen: set<string> := {};
      while i < |packs|
        invariant 0 <= i <= |packs| && |applied| == i
        invariant forall j :: 0 <= j < i ==> packs[j] in seen
        invariant forall k :: k in seen ==> k in packs
        invariant forall k :: k in loadedPacks ==> LoadedAs(k, loadedPacks[k])
        invariant forall k :: k in old(loadedPacks) ==> k in loadedPacks && loadedPacks[k] == old(loadedPacks)[k]
        invariant forall k :: k in loadedPacks && k !in old(loadedPacks) ==> k in seen && (k != "" ==> fresh(loadedPacks[k].pack))
        invariant forall k :: k in registered <==> k in loadedPacks && k != "" && k in packs
        invariant forall k :: k in newPacks <==> k in seen
        invariant forall k :: k in newPacks ==> k in loadedPacks && newPacks[k] == loadedPacks[k]
        invariant forall j :: 0 <= j < i ==> applied[j] == newPacks[packs[j]]
      {
        var pack := packs[i];
        var loadedPack := GetOrPut(pack);
        newPacks := newPacks[pack := loadedPack];
        applied := applied + [loadedPack];
        seen := seen + {pack};
        i := i + 1;
      }
      appliedPacks := applied;
    }

    /** `loadedPacks.getOrPut(name) { loadPack(name).apply { register() } }`. */
    method GetOrPut(name: string) returns (p: IconPack)
      requires forall k :: k in loadedPacks ==> LoadedAs(k, loadedPacks[k])
      modifies this
      ensures appliedPacks == old(appliedPacks) && LoadedAs(name, p)
      ensures name in old(loadedPacks) ==>
        (p == old(loadedPacks)[name] && loadedPacks == old(loadedPacks) && registered == old(registered))
      ensures name !in old(loadedPacks) ==>
        (loadedPacks == old(loadedPacks)[name := p] && (p.ImplPack? ==> fresh(p.pack))
         && registered == if name == "" then old(registered) else old(registered) + {name})
    {
      if name in loadedPacks {
        return loadedPacks[name];
      }
      p := LoadPack(name);
      Register(p);
      loadedPacks := loadedPacks[name := p];
    }

    /**
     * `getPack`: with `keep`, the cached pack, or a newly loaded and
     * registered one that is then cached; without `keep`, the cached pack or
     * a new installed pack object that is not cached.
     */
    method GetPack(packageName: string, keep: bool) returns (p: IconPack)
      requires Valid()
      modifies this
      ensures Valid() && appliedPacks == old(appliedPacks)
      ensures packageName in old(loadedPacks) ==>
        (p == old(loadedPacks)[packageName] && loadedPacks == old(loadedPacks) && registered == old(registered))
      ensures packageName !in old(loadedPacks) && keep ==>
        (LoadedAs(packageName, p) && loadedPacks == old(loadedPacks)[packageName := p] && (p.ImplPack? ==> fresh(p.pack)))
      ensures packageName !in old(loadedPacks) && !keep ==>
        (p.ImplPack? && p.pack.packPackageName == packageName && fresh(p.pack)
         && loadedPacks == old(loadedPacks) && registered == old(registered))
    {
      if keep {
        p := GetOrPut(packageName);
        return p;
      }
      if packageName in loadedPacks {
        return loadedPacks[packageName];
      }
      var pack := new IconPackImpl.IconPackImpl(packageName);
      return ImplPack(pack);
    }

    /** `currentPack`: the first applied pack, or the default pack when none is applied. */
    function CurrentPack(): (r: IconPack)
      reads this
      ensures |appliedPacks| > 0 ==> r == appliedPacks[0]
      ensures |appliedPacks| == 0 ==> PackName(r) == DEFAULT_PACK_NAME
    {
      if |appliedPacks| > 0 then appliedPacks[0] else DefaultPack
    }
  }

  /** After applying a list of names, the current pack is the first of them, or the default pack for an empty list. */
  method ApplyThenCurrent(list: IconPackList, packs: seq<string>) returns (current: IconPack)
    requires list.Valid()
    modifies list
    ensures |packs| > 0 ==> PackName(current) == packs[0]
    ensures |packs| == 0 ==> current == DefaultPack
  {
    list.OnPackListUpdated(packs);
    current := list.CurrentPack();
  }
}
