/**
 * The icon pack manager: the saved form of a per-app custom icon choice
 * (`CustomIconEntry`, printed as `pkg|icon|arg` and also read in the older
 * `pkg/icon` form), the lookup of a pack by package name, and the chain an
 * app icon is taken from (custom pack, then each applied pack, then the
 * default pack).
 */
module IconPackManager {
  import opened Common
  import IconPackList

  /** A custom icon: the pack it comes from, and optionally the drawable and an argument. */
  datatype CustomIconEntry = CustomIconEntry(packPackageName: string, icon: Option<string>, arg: Option<string>)

  /** `asNonEmpty`: an empty string reads as absent. */
  function AsNonEmpty(s: string): (r: Option<string>)
    ensures r.None? <==> s == ""
    ensures r.Some? ==> r.value == s
  {
    if s == "" then None else Some(s)
  }

  /** A field as printed: its value, or nothing when absent. */
  function OrEmpty(o: Option<string>): string
  {
    match o
    case None => ""
    case Some(v) => v
  }

  /** `toPackString`: the pack's package name alone. */
  function ToPackString(e: CustomIconEntry): (r: string)
    ensures |r| < |EntryString(e)| && EntryString(e)[..|r|] == r && EntryString(e)[|r|] == '|'
  {
    e.packPackageName
  }

  /** `toString`: `pkg|icon|arg`, an absent field printed empty. */
  function EntryString(e: CustomIconEntry): (r: string)
    ensures |r| == |e.packPackageName| + |OrEmpty(e.icon)| + |OrEmpty(e.arg)| + 2
    ensures r[..|e.packPackageName|] == e.packPackageName && r[|e.packPackageName|] == '|'
    ensures r[|r| - |OrEmpty(e.arg)| - 1] == '|' && r[|r| - |OrEmpty(e.arg)|..] == OrEmpty(e.arg)
  {
    e.packPackageName + "|" + OrEmpty(e.icon) + "|" + OrEmpty(e.arg)
  }

  /**
   * `parseLegacy`: split at '/', the pack is the first piece and the icon the
   * rest joined back with '/'. For the file-icon pack with a non-blank icon,
   * the icon is itself `icon|arg`, and a missing '|' reads past the end.
   */
  function ParseLegacy(s: string): (r: Result<CustomIconEntry>)
    ensures r.Failure? ==> Split(s, '/')[0] == IconPackList.URI_PACK_NAME
    ensures r.Ok? ==> r.value.packPackageName == Split(s, '/')[0] && '/' !in r.value.packPackageName
    ensures r.Ok? ==> r.value.icon != Some("") && r.value.arg != Some("")
    ensures r.Ok? && Split(s, '/')[0] != IconPackList.URI_PACK_NAME ==> r.value.arg.None?
  {
    var parts := Split(s, '/');
    var icon := Join(parts[1..], '/');
    if parts[0] == IconPackList.URI_PACK_NAME && !IsBlank(icon) then
      var iconParts := Split(icon, '|');
      if |iconParts| < 2 then Failure("index 1 out of bounds")
      else Ok(CustomIconEntry(parts[0], AsNonEmpty(iconParts[0]), AsNonEmpty(iconParts[1])))
    else
      Ok(CustomIconEntry(parts[0], AsNonEmpty(icon), None))
  }

  /**
   * `fromString` (and `fromNullableString` of a present string): a string
   * with a '|' whose first '|'-piece has no '/' is `pkg|icon|arg`, and a
   * single '|' reads past the end; every other string is the legacy form.
   */
  function FromString(s: string): (r: Result<CustomIconEntry>)
    ensures r.Ok? ==> '/' !in r.value.packPackageName && r.value.packPackageName <= s
    ensures '|' !in s ==> r == ParseLegacy(s)
  {
    if '|' in s then
      var parts := Split(s, '|');
      if '/' in parts[0] then ParseLegacy(s)
      else if |parts| < 3 then Failure("index 2 out of bounds")
      else Ok(CustomIconEntry(parts[0], AsNonEmpty(parts[1]), AsNonEmpty(parts[2])))
    else
      ParseLegacy(s)
  }

  /** `fromNullableString`: nothing for a null string, else what `fromString` reads. */
  function FromNullableString(s: Option<string>): (r: Result<Option<CustomIconEntry>>)
    ensures s.None? ==> r == Ok(None)
    ensures s.Some? && FromString(s.value).Ok? ==> r == Ok(Some(FromString(s.value).value))
    ensures s.Some? && FromString(s.value).Failure? ==> r.Failure?
  {
    match s
    case None => Ok(None)
    case Some(str) =>
      match FromString(str)
      case Ok(e) => Ok(Some(e))
      case Failure(m) => Failure(m)
  }

  /** A string holding a '|' splits into at least two pieces, so the source's one-piece branch is never taken. */
  lemma SeparatorSplitsInTwo(s: string, c: char)
    requires c in s
    ensures |Split(s, c)| >= 2
  {
    var i := IndexOf(s, c);
    var rest := Split(s[i + 1..], c);
    assert |Split(s, c)| == 1 + |rest|;
  }

  /** A field that survives printing and reading back: absent, or non-empty without '|'. */
  predicate Printable(o: Option<string>)
  {
    o.None? || (o.value != "" && '|' !in o.value)
  }

  /** The three '|'-pieces of `a|b|c` when none of them holds a '|'. */
  lemma SplitThree(a: string, b: string, c: string)
    requires '|' !in a && '|' !in b && '|' !in c
    ensures Split(a + "|" + b + "|" + c, '|') == [a, b, c]
  {
    var bc := b + ['|'] + c;
    SplitFirst(b, '|', c);
    assert a + "|" + b + "|" + c == a + ['|'] + bc;
    SplitFirst(a, '|', bc);
  }

  /** Reading back a printed entry gives the entry, for a pack name without '|' or '/' and printable fields. */
  lemma RoundTrip(e: CustomIconEntry)
    requires '|' !in e.packPackageName && '/' !in e.packPackageName
    requires Printable(e.icon) && Printable(e.arg)
    ensures FromString(EntryString(e)) == Ok(e)
    ensures FromNullableString(Some(EntryString(e))) == Ok(Some(e))
  {
    var pkg, icon, arg := e.packPackageName, OrEmpty(e.icon), OrEmpty(e.arg);
    var s := EntryString(e);
    SplitThree(pkg, icon, arg);
    assert s[|pkg|] == '|';
    var parts := Split(s, '|');
    assert parts == [pkg, icon, arg];
    assert AsNonEmpty(icon) == e.icon && AsNonEmpty(arg) == e.arg;
  }

  /** Reading a string with a single '|' and a '/'-free head reads past the end of the pieces. */
  lemma SinglePipeFails(pkg: string, icon: string)
    requires '|' !in pkg && '/' !in pkg && '|' !in icon
    ensures FromString(pkg + "|" + icon).Failure?
  {
    var s := pkg + "|" + icon;
    SplitFirst(pkg, '|', icon);
    assert s == pkg + ['|'] + icon;
    assert s[|pkg|] == '|';
  }

  /** The '/'-pieces of `pkg/tail` for a '/'-free `pkg`: the pack is `pkg` and the rejoined icon is `tail`. */
  lemma LegacyPieces(pkg: string, tail: string)
    requires '/' !in pkg
    ensures Split(pkg + "/" + tail, '/')[0] == pkg
    ensures Join(Split(pkg + "/" + tail, '/')[1..], '/') == tail
  {
    assert pkg + "/" + tail == pkg + ['/'] + tail;
    SplitFirst(pkg, '/', tail);
    JoinSplit(tail, '/');
    assert ([pkg] + Split(tail, '/'))[1..] == Split(tail, '/');
  }

  /** The file-icon pack's name holds neither separator. */
  lemma UriNameHasNoSeparator()
    ensures '/' !in IconPackList.URI_PACK_NAME && '|' !in IconPackList.URI_PACK_NAME
  {
  }

  /** A legacy `pack/icon` string reads as that pack and icon, for any pack but the file-icon pack. */
  lemma LegacyRead(pkg: string, icon: string)
    requires '/' !in pkg && '|' !in pkg && '|' !in icon && pkg != IconPackList.URI_PACK_NAME
    ensures FromString(pkg + "/" + icon) == Ok(CustomIconEntry(pkg, AsNonEmpty(icon), None))
  {
    LegacyPieces(pkg, icon);
  }

  /** A string whose first '|'-piece holds a '/' is read in the legacy form. */
  lemma SlashBeforePipeIsLegacy(pkg: string, icon: string, arg: string)
    requires '/' !in pkg && '|' !in pkg && '|' !in icon
    ensures FromString(pkg + "/" + icon + "|" + arg) == ParseLegacy(pkg + "/" + (icon + "|" + arg))
  {
    assert pkg + "/" + icon + "|" + arg == pkg + "/" + (icon + "|" + arg);
    var head := pkg + "/" + icon;
    assert head == pkg + ['/'] + icon;
    assert head[|pkg|] == '/';
    assert '|' !in head by {
      forall k | 0 <= k < |head| ensures head[k] != '|' {
        if k < |pkg| {
          assert head[k] == pkg[k];
        } else if k > |pkg| {
          assert head[k] == icon[k - |pkg| - 1];
        }
      }
    }
    var s := head + "|" + arg;
    assert s == head + ['|'] + arg;
    assert s[|head|] == '|';
    SplitFirst(head, '|', arg);
    assert pkg + "/" + icon + "|" + arg == s;
  }

  /** The legacy reading of `pkg/tail`, for a '/'-free `pkg`, in terms of `pkg` and `tail`. */
  lemma ParseLegacyOf(pkg: string, tail: string)
    requires '/' !in pkg
    ensures ParseLegacy(pkg + "/" + tail) ==
      if pkg == IconPackList.URI_PACK_NAME && !IsBlank(tail) then
        (if |Split(tail, '|')| < 2 then Failure("index 1 out of bounds")
         else Ok(CustomIconEntry(pkg, AsNonEmpty(Split(tail, '|')[0]), AsNonEmpty(Split(tail, '|')[1]))))
      else Ok(CustomIconEntry(pkg, AsNonEmpty(tail), None))
  {
    LegacyPieces(pkg, tail);
  }

  /** A legacy file-icon string `lawnchairUriPack/icon|arg` reads as the file-icon pack with that icon and argument. */
  lemma UriLegacyRead(icon: string, arg: string)
    requires '|' !in icon && '|' !in arg
    ensures FromString(IconPackList.URI_PACK_NAME + "/" + icon + "|" + arg)
      == Ok(CustomIconEntry(IconPackList.URI_PACK_NAME, AsNonEmpty(icon), AsNonEmpty(arg)))
  {
    UriNameHasNoSeparator();
    PipeLegacyRead(IconPackList.URI_PACK_NAME, icon, arg);
  }

  /** `pkg/icon|arg` for a separator-free `pkg` reads in the legacy form, the tail splitting at its '|' for the file-icon pack. */
  lemma PipeLegacyRead(pkg: string, icon: string, arg: string)
    requires '/' !in pkg && '|' !in pkg && '|' !in icon && '|' !in arg
    ensures FromString(pkg + "/" + icon + "|" + arg) ==
      if pkg == IconPackList.URI_PACK_NAME then Ok(CustomIconEntry(pkg, AsNonEmpty(icon), AsNonEmpty(arg)))
      else Ok(CustomIconEntry(pkg, AsNonEmpty(icon + "|" + arg), None))
  {
    var tail := icon + "|" + arg;
    SlashBeforePipeIsLegacy(pkg, icon, arg);
    assert Split(tail, '|') == [icon, arg] by {
      assert tail == icon + ['|'] + arg;
      SplitFirst(icon, '|', arg);
    }
    assert !IsBlank(tail) by {
      assert tail[|icon|] == '|';
    }
    ParseLegacyOf(pkg, tail);
  }

  /** A legacy file-icon string without '|' in its icon reads past the end. */
  lemma UriLegacyWithoutArgFails(icon: string)
    requires '|' !in icon && !IsBlank(icon)
    ensures FromString(IconPackList.URI_PACK_NAME + "/" + icon).Failure?
  {
    var pkg := IconPackList.URI_PACK_NAME;
    UriNameHasNoSeparator();
    ParseLegacyOf(pkg, icon);
  }

  /** Every entry read from a string has no present-but-empty field. */
  lemma ReadFieldsNonEmpty(s: string)
    requires FromString(s).Ok?
    ensures FromString(s).value.icon != Some("") && FromString(s).value.arg != Some("")
  {
  }

  /**
   * `isPackProvider`: a non-empty package name among `providers`, the
   * packages that answer one of the icon-pack intents.
   */
  predicate IsPackProvider(name: string, providers: set<string>)
  {
    name != "" && name in providers
  }

  /** The first present answer, or nothing when every answer is absent. */
  function FirstAnswer<D>(answers: seq<Option<D>>): (r: Option<D>)
    ensures r.None? <==> forall j :: 0 <= j < |answers| ==> answers[j].None?
    ensures r.Some? ==> r in answers
  {
    if |answers| == 0 then None
    else if answers[0].Some? then answers[0]
    else FirstAnswer(answers[1..])
  }

  /** The first present answer is the one at the first index holding an answer. */
  lemma {:induction false} FirstAnswerAt<D>(answers: seq<Option<D>>, i: nat)
    requires i < |answers| && answers[i].Some?
    requires forall k :: 0 <= k < i ==> answers[k].None?
    ensures FirstAnswer(answers) == answers[i]
  {
    if i > 0 {
      FirstAnswerAt(answers[1..], i - 1);
    }
  }

  /** The answers of the applied packs, in order, to a request without a custom entry. */
  function PackAnswers<D>(packs: seq<IconPackList.IconPack>, iconOf: (IconPackList.IconPack, Option<CustomIconEntry>) -> Option<D>): (r: seq<Option<D>>)
    ensures |r| == |packs| && forall j :: 0 <= j < |packs| ==> r[j] == iconOf(packs[j], None)
  {
    seq(|packs|, j requires 0 <= j < |packs| => iconOf(packs[j], None))
  }

  /** The icon chain: the custom pack's answer, else the first applied pack's answer, else the default pack's icon. */
  function IconChain<D>(custom: Option<D>, answers: seq<Option<D>>, fallback: D): D
  {
    if custom.Some? then custom.value
    else if FirstAnswer(answers).Some? then FirstAnswer(answers).value
    else fallback
  }

  /** What `getIconPackInternal` yields for a name, given the answer it reads from the pack list. */
  predicate PackFor(name: string, providers: set<string>, r: Option<IconPackList.IconPack>)
  {
    if name == IconPackList.DEFAULT_PACK_NAME then r == Some(IconPackList.DefaultPack)
    else if name == IconPackList.URI_PACK_NAME then r == Some(IconPackList.UriPack)
    else if IsPackProvider(name, providers) then r.Some? && r.value.ImplPack? && r.value.pack.packPackageName == name
    else r.None?
  }

  class IconPackManager {
    /** The applied packs and the loaded-pack cache. */
    const packList: IconPackList.IconPackList

    ghost predicate Valid()
      reads this, packList
    {
      packList.Valid()
    }

    /** The manager starts with the saved pack list applied. */
    constructor (packs: seq<string>)
      ensures Valid() && fresh(packList)
      ensures |packList.appliedPacks| == |packs|
      ensures forall i :: 0 <= i < |packs| ==> IconPackList.PackName(packList.appliedPacks[i]) == packs[i]
    {
      packList := new IconPackList.IconPackList(packs);
      new;
      forall i | 0 <= i < |packs|
        ensures IconPackList.PackName(packList.appliedPacks[i]) == packs[i]
      {
        IconPackList.LoadedAsNamed(packs[i], packList.appliedPacks[i]);
      }
    }

    /**
     * `getIconPackInternal`: the default and file-icon packs by their names
     * without touching the pack list; for an installed pack provider, the
     * pack list's pack (cached when `put`); otherwise nothing.
     */
    method GetIconPackInternal(name: string, put: bool, providers: set<string>) returns (r: Option<IconPackList.IconPack>)
      requires Valid()
      modifies packList
      ensures Valid() && PackFor(name, providers, r)
      ensures packList.appliedPacks == old(packList.appliedPacks)
      ensures !IsPackProvider(name, providers) || name == IconPackList.URI_PACK_NAME ==>
        packList.loadedPacks == old(packList.loadedPacks) && packList.registered == old(packList.registered)
    {
      if name == IconPackList.DEFAULT_PACK_NAME {
        return Some(IconPackList.DefaultPack);
      }
      if name == IconPackList.URI_PACK_NAME {
        return Some(IconPackList.UriPack);
      }
      if IsPackProvider(name, providers) {
        var p := packList.GetPack(name, put);
        if name in old(packList.loadedPacks) {
          assert IconPackList.LoadedAs(name, old(packList.loadedPacks)[name]);
        }
        return Some(p);
      }
      return None;
    }

    /**
     * `getIcon` for an app: the custom entry's pack answers first, then
     * each applied pack in order with no entry, and the default pack's icon
     * closes the chain. `iconOf` is what a pack draws for the app (absent
     * when it has nothing), and `fallback` what the default pack draws.
     */
    method GetIcon<D>(customEntry: Option<CustomIconEntry>, providers: set<string>,
                      iconOf: (IconPackList.IconPack, Option<CustomIconEntry>) -> Option<D>, fallback: D)
      returns (icon: D, customPack: Option<IconPackList.IconPack>)
      requires Valid()
      modifies packList
      ensures Valid() && packList.appliedPacks == old(packList.appliedPacks)
      ensures customEntry.None? ==> customPack.None?
      ensures customEntry.Some? ==> PackFor(customEntry.value.packPackageName, providers, customPack)
      ensures icon == IconChain(if customPack.Some? then iconOf(customPack.value, customEntry) else None,
                                PackAnswers(packList.appliedPacks, iconOf), fallback)
    {
      customPack := None;
      if customEntry.Some? {
        customPack := GetIconPackInternal(customEntry.value.packPackageName, true, providers);
      }
      if customPack.Some? {
        var answer := iconOf(customPack.value, customEntry);
        if answer.Some? {
          return answer.value, customPack;
        }
      }
      ghost var answers := PackAnswers(packList.appliedPacks, iconOf);
      var i := 0;
      while i < |packList.appliedPacks|
        invariant 0 <= i <= |packList.appliedPacks|
        invariant forall k :: 0 <= k < i ==> answers[k].None?
      {
        var answer := iconOf(packList.appliedPacks[i], None);
        if answer.Some? {
          FirstAnswerAt(answers, i);
          return answer.value, customPack;
        }
        i := i + 1;
      }
      return fallback, customPack;
    }
  }
}
