/** The settings-store types of `src/schema-types.ts`: source groups, the
    list-view configuration with its bit flags, and the preference enums the
    other modules use. */
module SchemaTypes {
  import opened Wrappers
  import Text

  /** A group of sources in the side menu. A group of exactly one source is
      that source shown on its own, without a name or an expanded state. */
  datatype SourceGroup = SourceGroup(
    isMultiple: bool,
    sids: seq<int>,
    name: Option<string>,
    expanded: Option<bool>,
    index: Option<int>)

  const DefaultGroupName: string := "Source group"

  /** `(name && name.trim()) || "Source group"`. */
  function GroupName(name: Option<string>): (r: string)
    ensures r != []
  {
    match name
    case None => DefaultGroupName
    case Some(n) =>
      var t := Text.Trim(n);
      if n == [] || t == [] then DefaultGroupName else t
  }

  /** The group name is the trimmed argument when that has any character
      other than white space, and the default name otherwise. */
  lemma GroupNameSpec(name: Option<string>)
    ensures name.Some? && (exists i :: 0 <= i < |name.value| && !Text.IsJsWhiteSpace(name.value[i]))
            ==> GroupName(name) == Text.Trim(name.value)
    ensures name.None? || (forall i :: 0 <= i < |name.value| ==> Text.IsJsWhiteSpace(name.value[i]))
            ==> GroupName(name) == DefaultGroupName
  {
    if name.Some? {
      var n := name.value;
      Text.TrimSpec(n);
      if Text.Trim(n) == [] {
        assert GroupName(name) == DefaultGroupName;
      } else {
        assert n != [];
        assert GroupName(name) == Text.Trim(n);
      }
    }
  }

  /** `new SourceGroup(sids, name)`. */
  function NewSourceGroup(sids: seq<int>, name: Option<string>): (g: SourceGroup)
    ensures g.sids == sids && g.index.None?
    ensures g.isMultiple <==> |sids| != 1
    ensures !g.isMultiple ==> g.name.None? && g.expanded.None?
    ensures g.isMultiple ==> g.expanded == Some(true) && g.name.Some? && g.name.value != []
  {
    var n := GroupName(name);
    if |sids| == 1 then SourceGroup(false, sids, None, None, None)
    else SourceGroup(true, sids, Some(n), Some(true), None)
  }

  /** A multi-source group is named after the argument, trimmed, or gets the
      default name. */
  lemma NewSourceGroupName(sids: seq<int>, name: Option<string>)
    requires |sids| != 1
    ensures NewSourceGroup(sids, name).name == Some(GroupName(name))
  {
  }

  datatype ViewType = Cards | List | Magazine | Compact | Customized

  /** The list-view options, each one bit of `listViewConfigs`. */
  datatype ListViewConfig = ShowCover | ShowSnippet | FadeRead

  function Bit(f: ListViewConfig): bv32
  {
    match f
    case ShowCover => 1
    case ShowSnippet => 2
    case FadeRead => 4
  }

  predicate HasFlag(flags: bv32, f: ListViewConfig)
  {
    flags & Bit(f) != 0
  }

  /** `listViewConfigs ^ flag`, as the view menu toggles an option. */
  function Toggle(flags: bv32, f: ListViewConfig): bv32
  {
    flags ^ Bit(f)
  }

  datatype ViewConfig = ViewConfig(currentView: ViewType, listViewConfigs: bv32)

  function DefaultViewConfig(): (c: ViewConfig)
    ensures c.currentView == Cards
    ensures forall f :: HasFlag(c.listViewConfigs, f) <==> f == ShowCover
  {
    ViewConfig(Cards, Bit(ShowCover))
  }

  /** The flags are distinct single bits. */
  lemma FlagsAreDistinctBits(f: ListViewConfig, g: ListViewConfig)
    ensures Bit(f) & (Bit(f) - 1) == 0 && Bit(f) != 0
    ensures f != g ==> Bit(f) & Bit(g) == 0
  {
  }

  /** XOR with a bit flips that bit and keeps a different bit. */
  lemma XorBit(flags: bv32, b: bv32, c: bv32)
    requires b == 1 || b == 2 || b == 4
    requires c == 1 || c == 2 || c == 4
    ensures ((flags ^ b) & b != 0) == (flags & b == 0)
    ensures b != c ==> ((flags ^ b) & c != 0) == (flags & c != 0)
    ensures flags ^ b ^ b == flags
  {
    if b == 1 {
      if c == 2 { } else if c == 4 { }
    } else if b == 2 {
      if c == 1 { } else if c == 4 { }
    } else {
      if c == 1 { } else if c == 2 { }
    }
  }

  /** Toggling a flag flips it and leaves every other flag as it was;
      toggling it twice restores the configuration. */
  lemma ToggleFlag(flags: bv32, f: ListViewConfig, g: ListViewConfig)
    ensures HasFlag(Toggle(flags, f), f) == !HasFlag(flags, f)
    ensures f != g ==> HasFlag(Toggle(flags, f), g) == HasFlag(flags, g)
    ensures Toggle(Toggle(flags, f), f) == flags
  {
    XorBit(flags, Bit(f), Bit(g));
  }

  datatype AnimationMotionPref = System | On | Reduced | Off

  /** Where a thumbnail candidate was found. */
  datatype ThumbnailTypePref = OpenGraph | MediaThumbnail | Thumb | Other
}
