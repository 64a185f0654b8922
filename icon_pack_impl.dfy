/**
 * An installed icon pack: reading its `appfilter` document, tag by tag,
 * into the maps from app components to drawables (plain icons, calendar
 * icons, clock icons), the dynamic clock descriptions and the mask images,
 * and the lookups of an entry for a component.
 */
module IconPackImpl {
  import opened Common
  import IconMask

  /** An attribute of a tag, in document order. */
  datatype Attribute = Attribute(name: string, value: string)

  /** A parser event: a start tag with its attributes, or anything else (text, end tags). */
  datatype Event = StartTag(name: string, attrs: seq<Attribute>) | OtherEvent

  /** An app component: package and class. */
  datatype ComponentName = ComponentName(packageName: string, className: string)

  /** The layer indexes and default time of a dynamic clock. */
  datatype ClockMetadata = ClockMetadata(hourLayerIndex: int, minuteLayerIndex: int, secondLayerIndex: int,
                                         defaultHour: int, defaultMinute: int, defaultSecond: int)

  /** An entry a pack hands out: one of its images, or a masked version of the app's own icon. */
  datatype PackEntry = DrawableEntry(entry: IconMask.Entry) | MaskEntry(key: ComponentName)

  /** The value of the first attribute called `name`, or nothing. */
  function AttributeValue(attrs: seq<Attribute>, name: string): Option<string>
  {
    if |attrs| == 0 then None
    else if attrs[0].name == name then Some(attrs[0].value)
    else AttributeValue(attrs[1..], name)
  }

  /** The value found is the first attribute of that name; nothing is found only when no attribute has the name. */
  lemma {:induction false} AttributeValueSpec(attrs: seq<Attribute>, name: string)
    ensures AttributeValue(attrs, name).None? <==> forall i :: 0 <= i < |attrs| ==> attrs[i].name != name
    ensures AttributeValue(attrs, name).Some? ==>
      exists i :: (0 <= i < |attrs| && attrs[i] == Attribute(name, AttributeValue(attrs, name).value)
        && forall j :: 0 <= j < i ==> attrs[j].name != name)
  {
    if |attrs| > 0 && attrs[0].name != name {
      AttributeValueSpec(attrs[1..], name);
      assert forall i :: 1 <= i < |attrs| ==> attrs[i] == attrs[1..][i - 1];
      if AttributeValue(attrs, name).Some? {
        var i :| 0 <= i < |attrs[1..]| && attrs[1..][i] == Attribute(name, AttributeValue(attrs, name).value)
          && forall j :: 0 <= j < i ==> attrs[1..][j].name != name;
        assert attrs[i + 1] == Attribute(name, AttributeValue(attrs, name).value);
      }
    }
  }

  predicate StartsWith(s: string, prefix: string)
  {
    |prefix| <= |s| && s[..|prefix|] == prefix
  }

  predicate EndsWith(s: string, suffix: string)
  {
    |suffix| <= |s| && s[|s| - |suffix|..] == suffix
  }

  const COMP_START: string := "ComponentInfo{"
  const COMP_END: string := "}"

  /** A component written as `ComponentInfo{…}` loses the wrapper; anything else is kept. */
  function StripComponentInfo(s: string): (r: string)
    ensures r == s || (|r| + 15 == |s| && s == COMP_START + r + COMP_END)
  {
    if StartsWith(s, COMP_START) && EndsWith(s, COMP_END) then
      assert s[13] == COMP_START[13] == '{';
      s[14..|s| - 1]
    else s
  }

  /** A wrapped component loses exactly the wrapper, and only a wrapped one changes. */
  lemma StripComponentInfoSpec(s: string)
    ensures StartsWith(s, COMP_START) && EndsWith(s, COMP_END) ==> s == COMP_START + StripComponentInfo(s) + COMP_END
    ensures !(StartsWith(s, COMP_START) && EndsWith(s, COMP_END)) ==> StripComponentInfo(s) == s
  {
    if StartsWith(s, COMP_START) && EndsWith(s, COMP_END) {
      assert s[13] == COMP_START[13] == '{';
      assert s[..14] + s[14..|s| - 1] + s[|s| - 1..] == s;
    }
  }

  /** Wrapping a component and stripping it again gives the component back. */
  lemma StripWrapped(c: string)
    ensures StripComponentInfo(COMP_START + c + COMP_END) == c
  {
    var s := COMP_START + c + COMP_END;
    assert s[..14] == COMP_START;
    assert s[|s| - 1..] == COMP_END;
    assert s[14..|s| - 1] == c;
  }

  /**
   * The platform's `ComponentName.unflattenFromString`: package before the
   * first '/', class after it (a class starting with '.' is relative to the
   * package); nothing when there is no '/' or nothing after it.
   */
  function UnflattenFromString(s: string): (r: Option<ComponentName>)
    ensures r.Some? <==> '/' in s && IndexOf(s, '/') + 1 < |s|
    ensures r.Some? ==> r.value.packageName == s[..IndexOf(s, '/')] && '/' !in r.value.packageName
    ensures r.Some? ==> |r.value.className| > 0
  {
    if '/' !in s then None
    else
      var sep := IndexOf(s, '/');
      if sep + 1 >= |s| then None
      else
        var pkg := s[..sep];
        var cls := s[sep + 1..];
        Some(ComponentName(pkg, if cls[0] == '.' then pkg + cls else cls))
  }

  /** A component written out as `package/class` reads back as itself. */
  lemma UnflattenFlattened(c: ComponentName)
    requires '/' !in c.packageName && |c.className| > 0 && c.className[0] != '.'
    ensures UnflattenFromString(c.packageName + "/" + c.className) == Some(c)
  {
    var s := c.packageName + "/" + c.className;
    assert s[|c.packageName|] == '/';
    assert forall j :: 0 <= j < |c.packageName| ==> s[j] == c.packageName[j];
    assert s[..|c.packageName|] == c.packageName;
    assert s[|c.packageName| + 1..] == c.className;
  }

  /** The tags that map a component to a drawable. */
  datatype TagKind = ItemTag | CalendarTag | ClockTag

  /** The tags `loadPack` acts on, by name; `scale` is read but its float factor is not modelled. */
  datatype Tag = ComponentTag(kind: TagKind) | DynamicClockTag | IconBackTag | IconMaskTag | IconUponTag | ConfigTag | OtherTag

  /** The tag a start tag's name selects. */
  function TagOf(name: string): Tag
  {
    if name == "calendar" then ComponentTag(CalendarTag)
    else if name == "clock" then ComponentTag(ClockTag)
    else if name == "item" then ComponentTag(ItemTag)
    else if name == "dynamic-clock" then DynamicClockTag
    else if name == "iconback" then IconBackTag
    else if name == "iconmask" then IconMaskTag
    else if name == "iconupon" then IconUponTag
    else if name == "config" then ConfigTag
    else OtherTag
  }

  /** The names of the tags `loadPack` knows select their own tag. */
  lemma TagNames()
    ensures TagOf("calendar") == ComponentTag(CalendarTag) && TagOf("clock") == ComponentTag(ClockTag)
    ensures TagOf("item") == ComponentTag(ItemTag) && TagOf("dynamic-clock") == DynamicClockTag
    ensures TagOf("iconback") == IconBackTag && TagOf("iconmask") == IconMaskTag
    ensures TagOf("iconupon") == IconUponTag && TagOf("config") == ConfigTag && TagOf("scale") == OtherTag
  {
    assert "iconmask"[4] != "iconback"[4];
    assert "iconupon"[4] != "iconback"[4] && "iconupon"[4] != "iconmask"[4];
    assert "scale"[0] != "clock"[0] && "clock"[1] != "calendar"[1];
  }

  /** The attribute holding the drawable: "prefix" for calendars, "drawable" otherwise. */
  function DrawableAttribute(kind: TagKind): string
  {
    if kind == CalendarTag then "prefix" else "drawable"
  }

  /** The component and drawable a component tag names, when both are there and the component parses. */
  function ComponentEntry(attrs: seq<Attribute>, kind: TagKind): Option<(ComponentName, string)>
  {
    var component := AttributeValue(attrs, "component");
    var drawable := AttributeValue(attrs, DrawableAttribute(kind));
    if component.None? || drawable.None? then None
    else
      var parsed := UnflattenFromString(StripComponentInfo(component.value));
      if parsed.None? then None else Some((parsed.value, drawable.value))
  }

  /** An attribute naming a mask image: its name starts with "img" and its value is not empty. */
  predicate IsImg(a: Attribute)
  {
    StartsWith(a.name, "img") && a.value != ""
  }

  /** The mask images of a tag: each non-empty value of an attribute whose name starts with "img", in order. */
  function ImgEntries(attrs: seq<Attribute>): seq<IconMask.Entry>
  {
    if |attrs| == 0 then []
    else
      var rest := ImgEntries(attrs[..|attrs| - 1]);
      var a := attrs[|attrs| - 1];
      if IsImg(a) then rest + [IconMask.Entry(a.value)] else rest
  }

  /** Exactly the non-empty "img…" values become entries. */
  lemma {:induction false} ImgEntriesMembers(attrs: seq<Attribute>)
    ensures forall e :: e in ImgEntries(attrs) <==>
      exists i :: 0 <= i < |attrs| && IsImg(attrs[i]) && e == IconMask.Entry(attrs[i].value)
  {
    if |attrs| > 0 {
      var n := |attrs| - 1;
      ImgEntriesMembers(attrs[..n]);
      assert forall i :: 0 <= i < n ==> attrs[..n][i] == attrs[i];
    }
  }

  /** A longer attribute list only appends entries. */
  lemma {:induction false} ImgEntriesAppend(attrs: seq<Attribute>, more: seq<Attribute>)
    ensures ImgEntries(attrs + more) == ImgEntries(attrs) + ImgEntries(more)
    decreases |more|
  {
    if |more| > 0 {
      var m := |more| - 1;
      ImgEntriesAppend(attrs, more[..m]);
      assert (attrs + more)[..|attrs + more| - 1] == attrs + more[..m];
      assert (attrs + more)[|attrs + more| - 1] == more[m];
    } else {
      assert attrs + more == attrs;
    }
  }

  /** Everything `loadPack` fills. */
  datatype PackState = PackState(
    calendars: map<ComponentName, string>,
    directClocks: map<ComponentName, string>,
    customComponents: map<ComponentName, string>,
    customClocks: map<int, ClockMetadata>,
    backs: seq<IconMask.Entry>,
    masks: seq<IconMask.Entry>,
    upons: seq<IconMask.Entry>,
    onlyMaskLegacy: bool)

  /** A component tag stores its drawable in the map of its kind. */
  function ApplyComponentTag(st: PackState, attrs: seq<Attribute>, kind: TagKind): (r: PackState)
    ensures Accumulates(st, r)
  {
    match ComponentEntry(attrs, kind)
    case None => st
    case Some((c, d)) =>
      if kind == CalendarTag then st.(calendars := st.calendars[c := d])
      else if kind == ClockTag then st.(directClocks := st.directClocks[c := d])
      else st.(customComponents := st.customComponents[c := d])
  }

  /** An integer attribute, or its default when missing. */
  function IntAttribute(attrs: seq<Attribute>, name: string, default: int, toInt: string -> int): int
  {
    var v := AttributeValue(attrs, name);
    if v.Some? then toInt(v.value) else default
  }

  /** A dynamic clock's description; layer indexes default to -1 and the default time to 0. */
  function ClockOf(attrs: seq<Attribute>, toInt: string -> int): ClockMetadata
  {
    ClockMetadata(IntAttribute(attrs, "hourLayerIndex", -1, toInt),
                  IntAttribute(attrs, "minuteLayerIndex", -1, toInt),
                  IntAttribute(attrs, "secondLayerIndex", -1, toInt),
                  IntAttribute(attrs, "defaultHour", 0, toInt),
                  IntAttribute(attrs, "defaultMinute", 0, toInt),
                  IntAttribute(attrs, "defaultSecond", 0, toInt))
  }

  /** A dynamic-clock tag with a drawable that resolves to a resource describes that resource's clock. */
  function ApplyDynamicClock(st: PackState, attrs: seq<Attribute>, drawableIdOf: string -> int, toInt: string -> int): (r: PackState)
    ensures Accumulates(st, r)
  {
    var drawable := AttributeValue(attrs, "drawable");
    if drawable.None? || drawableIdOf(drawable.value) == 0 then st
    else st.(customClocks := st.customClocks[drawableIdOf(drawable.value) := ClockOf(attrs, toInt)])
  }

  /** Kotlin's `toBoolean`: "true" in any case. */
  predicate ToBoolean(s: string)
  {
    Lower(s) == "true"
  }

  /** A config tag sets `onlyMaskLegacy` when it gives a non-empty value. */
  function ApplyConfig(st: PackState, attrs: seq<Attribute>): (r: PackState)
    ensures Accumulates(st, r)
  {
    var v := AttributeValue(attrs, "onlyMaskLegacy");
    if v.None? || v.value == "" then st else st.(onlyMaskLegacy := ToBoolean(v.value))
  }

  /** Reading only adds: every map keeps its keys and every mask list is extended. */
  predicate Accumulates(st: PackState, r: PackState)
  {
    st.calendars.Keys <= r.calendars.Keys && st.directClocks.Keys <= r.directClocks.Keys
    && st.customComponents.Keys <= r.customComponents.Keys && st.customClocks.Keys <= r.customClocks.Keys
    && st.backs <= r.backs && st.masks <= r.masks && st.upons <= r.upons
  }

  /** One parser event of `loadPack`. */
  function ApplyEvent(st: PackState, ev: Event, drawableIdOf: string -> int, toInt: string -> int): (r: PackState)
    ensures Accumulates(st, r)
  {
    match ev
    case OtherEvent => st
    case StartTag(name, attrs) =>
      match TagOf(name)
      case ComponentTag(kind) => ApplyComponentTag(st, attrs, kind)
      case DynamicClockTag => ApplyDynamicClock(st, attrs, drawableIdOf, toInt)
      case IconBackTag => st.(backs := st.backs + ImgEntries(attrs))
      case IconMaskTag => st.(masks := st.masks + ImgEntries(attrs))
      case IconUponTag => st.(upons := st.upons + ImgEntries(attrs))
      case ConfigTag => ApplyConfig(st, attrs)
      case OtherTag => st
  }

  /** The events of a document, in order. */
  function LoadAll(st: PackState, events: seq<Event>, drawableIdOf: string -> int, toInt: string -> int): (r: PackState)
    ensures Accumulates(st, r)
  {
    if |events| == 0 then st
    else ApplyEvent(LoadAll(st, events[..|events| - 1], drawableIdOf, toInt), events[|events| - 1], drawableIdOf, toInt)
  }

  /** A component tag without a component or drawable, or whose component does not parse, adds nothing. */
  lemma IncompleteTagAddsNothing(st: PackState, name: string, attrs: seq<Attribute>, drawableIdOf: string -> int, toInt: string -> int)
    requires TagOf(name).ComponentTag?
    requires var kind := TagOf(name).kind;
      AttributeValue(attrs, "component").None? || AttributeValue(attrs, DrawableAttribute(kind)).None?
      || UnflattenFromString(StripComponentInfo(AttributeValue(attrs, "component").value)).None?
    ensures ApplyEvent(st, StartTag(name, attrs), drawableIdOf, toInt) == st
  {
  }

  /**
   * A complete component tag writes its drawable under its component in the
   * map of its kind (calendar, clock or plain icon) and changes nothing else.
   */
  lemma ComponentTagStores(st: PackState, name: string, attrs: seq<Attribute>, drawableIdOf: string -> int, toInt: string -> int)
    requires TagOf(name).ComponentTag? && ComponentEntry(attrs, TagOf(name).kind).Some?
    ensures var (c, d) := ComponentEntry(attrs, TagOf(name).kind).value;
      var st' := ApplyEvent(st, StartTag(name, attrs), drawableIdOf, toInt);
      (name == "calendar" ==> st' == st.(calendars := st.calendars[c := d]))
      && (name == "clock" ==> st' == st.(directClocks := st.directClocks[c := d]))
      && (name == "item" ==> st' == st.(customComponents := st.customComponents[c := d]))
  {
    TagNames();
  }

  /** The component and drawable of a plain-icon tag, if it is one that registers. */
  function ItemEntry(ev: Event): Option<(ComponentName, string)>
  {
    if ev.StartTag? && TagOf(ev.name) == ComponentTag(ItemTag) then ComponentEntry(ev.attrs, ItemTag) else None
  }

  /** Only a registering plain-icon tag changes the plain-icon map, by writing its one component. */
  lemma ItemsAfterEvent(st: PackState, ev: Event, drawableIdOf: string -> int, toInt: string -> int)
    ensures ApplyEvent(st, ev, drawableIdOf, toInt).customComponents ==
      if ItemEntry(ev).Some? then st.customComponents[ItemEntry(ev).value.0 := ItemEntry(ev).value.1]
      else st.customComponents
  {
    if ev.StartTag? && TagOf(ev.name).ComponentTag? {
      ItemsAfterComponentTag(st, ev.attrs, TagOf(ev.name).kind);
    }
  }

  /** A component tag writes the plain-icon map only when it is a complete plain-icon tag. */
  lemma ItemsAfterComponentTag(st: PackState, attrs: seq<Attribute>, kind: TagKind)
    ensures ApplyComponentTag(st, attrs, kind).customComponents ==
      if kind == ItemTag && ComponentEntry(attrs, kind).Some?
      then st.customComponents[ComponentEntry(attrs, kind).value.0 := ComponentEntry(attrs, kind).value.1]
      else st.customComponents
  {
  }

  /** The plain-icon map after writing the given entries in order; an absent entry writes nothing. */
  function WriteEntries(m: map<ComponentName, string>, entries: seq<Option<(ComponentName, string)>>): map<ComponentName, string>
  {
    if |entries| == 0 then m
    else
      var before := WriteEntries(m, entries[..|entries| - 1]);
      var e := entries[|entries| - 1];
      if e.Some? then before[e.value.0 := e.value.1] else before
  }

  /** The entry each event writes to the plain-icon map. */
  function ItemEntries(events: seq<Event>): (r: seq<Option<(ComponentName, string)>>)
    ensures |r| == |events| && forall i :: 0 <= i < |events| ==> r[i] == ItemEntry(events[i])
  {
    seq(|events|, i requires 0 <= i < |events| => ItemEntry(events[i]))
  }

  /** Loading events writes the plain-icon map exactly as their plain-icon entries do. */
  lemma {:induction false} ItemsOfLoadAll(st: PackState, events: seq<Event>, drawableIdOf: string -> int, toInt: string -> int)
    ensures LoadAll(st, events, drawableIdOf, toInt).customComponents == WriteEntries(st.customComponents, ItemEntries(events))
  {
    if |events| > 0 {
      var n := |events| - 1;
      ItemsOfLoadAll(st, events[..n], drawableIdOf, toInt);
      ItemsAfterEvent(LoadAll(st, events[..n], drawableIdOf, toInt), events[n], drawableIdOf, toInt);
      assert ItemEntries(events)[..n] == ItemEntries(events[..n]);
    }
  }

  /** An entry no later entry overwrites is what the map holds at the end. */
  lemma {:induction false} LastEntryWins(m: map<ComponentName, string>, entries: seq<Option<(ComponentName, string)>>, k: nat)
    requires k < |entries| && entries[k].Some?
    requires forall j :: k < j < |entries| && entries[j].Some? ==> entries[j].value.0 != entries[k].value.0
    ensures entries[k].value.0 in WriteEntries(m, entries)
    ensures WriteEntries(m, entries)[entries[k].value.0] == entries[k].value.1
  {
    var n := |entries| - 1;
    if k < n {
      var prefix := entries[..n];
      assert prefix[k] == entries[k];
      assert forall j :: k < j < n ==> prefix[j] == entries[j];
      LastEntryWins(m, prefix, k);
    }
  }

  /** The icon a component ends up with is the one of the last plain-icon tag for it. */
  lemma LastItemTagWins(st: PackState, events: seq<Event>, k: nat, drawableIdOf: string -> int, toInt: string -> int)
    requires k < |events| && ItemEntry(events[k]).Some?
    requires forall j :: k < j < |events| && ItemEntry(events[j]).Some? ==> ItemEntry(events[j]).value.0 != ItemEntry(events[k]).value.0
    ensures var (c, d) := ItemEntry(events[k]).value;
      c in LoadAll(st, events, drawableIdOf, toInt).customComponents
      && LoadAll(st, events, drawableIdOf, toInt).customComponents[c] == d
  {
    ItemsOfLoadAll(st, events, drawableIdOf, toInt);
    LastEntryWins(st.customComponents, ItemEntries(events), k);
  }

  /** Mask-image tags append their images, in attribute order, to their own list. */
  lemma MaskTagsAppend(st: PackState, attrs: seq<Attribute>, drawableIdOf: string -> int, toInt: string -> int)
    ensures ApplyEvent(st, StartTag("iconback", attrs), drawableIdOf, toInt) == st.(backs := st.backs + ImgEntries(attrs))
    ensures ApplyEvent(st, StartTag("iconmask", attrs), drawableIdOf, toInt) == st.(masks := st.masks + ImgEntries(attrs))
    ensures ApplyEvent(st, StartTag("iconupon", attrs), drawableIdOf, toInt) == st.(upons := st.upons + ImgEntries(attrs))
  {
    TagNames();
  }

  /** A config tag changes `onlyMaskLegacy` only when its value is non-empty, and nothing else ever. */
  lemma ConfigSpec(st: PackState, attrs: seq<Attribute>, drawableIdOf: string -> int, toInt: string -> int)
    ensures var st' := ApplyEvent(st, StartTag("config", attrs), drawableIdOf, toInt);
      st' == st.(onlyMaskLegacy := st'.onlyMaskLegacy)
      && (st'.onlyMaskLegacy != st.onlyMaskLegacy ==>
            AttributeValue(attrs, "onlyMaskLegacy").Some? && AttributeValue(attrs, "onlyMaskLegacy").value != "")
  {
    TagNames();
  }

  /** A dynamic clock that gives only its drawable gets layer indexes -1 and the default time 0:00:00. */
  lemma DynamicClockDefaults(attrs: seq<Attribute>, toInt: string -> int)
    requires forall i :: 0 <= i < |attrs| ==> attrs[i].name == "drawable"
    ensures ClockOf(attrs, toInt) == ClockMetadata(-1, -1, -1, 0, 0, 0)
  {
    AttributeValueSpec(attrs, "hourLayerIndex");
    AttributeValueSpec(attrs, "minuteLayerIndex");
    AttributeValueSpec(attrs, "secondLayerIndex");
    AttributeValueSpec(attrs, "defaultHour");
    AttributeValueSpec(attrs, "defaultMinute");
    AttributeValueSpec(attrs, "defaultSecond");
  }

  /** Tags the parser does not know, and non-tag events, change nothing. */
  lemma UnknownTagIgnored(st: PackState, ev: Event, drawableIdOf: string -> int, toInt: string -> int)
    requires ev.StartTag? ==> ev.name !in {"item", "calendar", "clock", "dynamic-clock", "iconback", "iconmask", "iconupon", "config"}
    ensures ApplyEvent(st, ev, drawableIdOf, toInt) == st
  {
  }

  /** An installed icon pack. */
  class IconPackImpl {
    const packPackageName: string
    var packCalendars: map<ComponentName, string>
    var packDirectClocks: map<ComponentName, string>
    var customPackComponents: map<ComponentName, string>
    var customPackClocks: map<int, ClockMetadata>
    /** The entries by component; `loadPack` never fills it. */
    var packComponents: map<ComponentName, IconMask.Entry>
    const packMask: IconMask.IconMask

    /** A pack before loading: every map and mask list empty. */
    constructor (name: string)
      ensures packPackageName == name && fresh(packMask)
      ensures State() == PackState(map[], map[], map[], map[], [], [], [], false) && packComponents == map[]
    {
      packPackageName := name;
      packCalendars := map[];
      packDirectClocks := map[];
      customPackComponents := map[];
      customPackClocks := map[];
      packComponents := map[];
      packMask := new IconMask.IconMask();
    }

    /** What `loadPack` has filled so far. */
    function State(): PackState
      reads this, packMask
    {
      PackState(packCalendars, packDirectClocks, customPackComponents, customPackClocks,
                packMask.iconBackEntries, packMask.iconMaskEntries, packMask.iconUponEntries, packMask.onlyMaskLegacy)
    }

    /** `addImgsTo`: the collection with the tag's mask images appended. */
    static method AddImgsTo(attrs: seq<Attribute>, collection: seq<IconMask.Entry>) returns (result: seq<IconMask.Entry>)
      ensures result == collection + ImgEntries(attrs)
    {
      result := collection;
      var i := 0;
      while i < |attrs|
        invariant 0 <= i <= |attrs| && result == collection + ImgEntries(attrs[..i])
      {
        assert attrs[..i + 1][..i] == attrs[..i];
        if StartsWith(attrs[i].name, "img") {
          var drawableName := attrs[i].value;
          if drawableName != "" {
            result := result + [IconMask.Entry(drawableName)];
          }
        }
        i := i + 1;
      }
      assert attrs[..i] == attrs;
    }

    /** The component-tag branch of `loadPack`: store the drawable under the parsed component in the kind's map. */
    method StoreComponent(attrs: seq<Attribute>, kind: TagKind)
      modifies this
      ensures State() == ApplyComponentTag(old(State()), attrs, kind)
      ensures packComponents == old(packComponents)
    {
      var componentName := AttributeValue(attrs, "component");
      var drawableName := AttributeValue(attrs, if kind == CalendarTag then "prefix" else "drawable");
      if componentName.Some? && drawableName.Some? {
        var parsed := UnflattenFromString(StripComponentInfo(componentName.value));
        if parsed.Some? {
          if kind == CalendarTag {
            packCalendars := packCalendars[parsed.value := drawableName.value];
          } else if kind == ClockTag {
            packDirectClocks := packDirectClocks[parsed.value := drawableName.value];
          } else {
            customPackComponents := customPackComponents[parsed.value := drawableName.value];
          }
        }
      }
    }

    /** The dynamic-clock branch of `loadPack`: describe the clock of the drawable's resource, if it has one. */
    method StoreDynamicClock(attrs: seq<Attribute>, drawableIdOf: string -> int, toInt: string -> int)
      modifies this
      ensures State() == ApplyDynamicClock(old(State()), attrs, drawableIdOf, toInt)
      ensures packComponents == old(packComponents)
    {
      var drawableName := AttributeValue(attrs, "drawable");
      if drawableName.Some? {
        var drawableId := drawableIdOf(drawableName.value);
        if drawableId != 0 {
          customPackClocks := customPackClocks[drawableId := ClockOf(attrs, toInt)];
        }
      }
    }

    /** The config branch of `loadPack`: a non-empty `onlyMaskLegacy` value sets the flag. */
    method StoreConfig(attrs: seq<Attribute>)
      modifies packMask
      ensures State() == ApplyConfig(old(State()), attrs)
    {
      var onlyMaskLegacy := AttributeValue(attrs, "onlyMaskLegacy");
      if onlyMaskLegacy.Some? && onlyMaskLegacy.value != "" {
        packMask.onlyMaskLegacy := ToBoolean(onlyMaskLegacy.value);
      }
    }

    /** One start tag of `loadPack`, dispatched on its name. */
    method ApplyTag(name: string, attrs: seq<Attribute>, drawableIdOf: string -> int, toInt: string -> int)
      modifies this, packMask
      ensures State() == ApplyEvent(old(State()), StartTag(name, attrs), drawableIdOf, toInt)
      ensures packComponents == old(packComponents)
    {
      TagNames();
      var isCalendar := name == "calendar";
      var isClock := name == "clock";
      if isClock || isCalendar || name == "item" {
        StoreComponent(attrs, if isCalendar then CalendarTag else if isClock then ClockTag else ItemTag);
      } else if name == "dynamic-clock" {
        StoreDynamicClock(attrs, drawableIdOf, toInt);
      } else if name == "iconback" {
        packMask.iconBackEntries := AddImgsTo(attrs, packMask.iconBackEntries);
      } else if name == "iconmask" {
        packMask.iconMaskEntries := AddImgsTo(attrs, packMask.iconMaskEntries);
      } else if name == "iconupon" {
        packMask.iconUponEntries := AddImgsTo(attrs, packMask.iconUponEntries);
      } else if name == "config" {
        StoreConfig(attrs);
      }
    }

    /**
     * `loadPack` over the document's events (`drawableIdOf` is the theme's
     * resource lookup, 0 for none; `toInt` the integer parse of a value).
     */
    method LoadPack(events: seq<Event>, drawableIdOf: string -> int, toInt: string -> int)
      modifies this, packMask
      ensures State() == LoadAll(old(State()), events, drawableIdOf, toInt)
      ensures packComponents == old(packComponents)
    {
      var i := 0;
      while i < |events|
        invariant 0 <= i <= |events|
        invariant State() == LoadAll(old(State()), events[..i], drawableIdOf, toInt)
        invariant packComponents == old(packComponents)
      {
        assert events[..i + 1][..i] == events[..i];
        if events[i].StartTag? {
          ApplyTag(events[i].name, events[i].attrs, drawableIdOf, toInt);
        }
        i := i + 1;
      }
      assert events[..i] == events;
    }

    /** `supportsMasking`: the pack's mask has an image it ships. */
    predicate SupportsMasking(icons: set<string>)
      reads this, packMask
    {
      packMask.Present(icons)
    }

    /** `getEntryForComponent`: the component's entry, only when the pack ships its image. */
    function GetEntryForComponent(key: ComponentName, icons: set<string>): (r: Option<IconMask.Entry>)
      reads this
      ensures r.Some? <==> key in packComponents && IconMask.IsAvailable(packComponents[key], icons)
      ensures r.Some? ==> r.value == packComponents[key]
    {
      if key in packComponents && IconMask.IsAvailable(packComponents[key], icons) then Some(packComponents[key]) else None
    }

    /** `getMaskEntryForComponent`: a masked entry for the key when the pack can mask, else nothing. */
    function GetMaskEntryForComponent(key: ComponentName, icons: set<string>): (r: Option<PackEntry>)
      reads this, packMask
      ensures r.Some? <==> SupportsMasking(icons)
      ensures r.Some? ==> r.value == MaskEntry(key)
    {
      if !SupportsMasking(icons) then None else Some(MaskEntry(key))
    }
  }

  /** A freshly created pack that has only been loaded hands out no entry for any component. */
  lemma LoadedPackHasNoComponentEntries(p: IconPackImpl, key: ComponentName, icons: set<string>)
    requires p.packComponents == map[]
    ensures p.GetEntryForComponent(key, icons).None?
  {
  }
}
