/** The configuration rules of `src/scripts/settings.ts`: the locale
    fallback, how a motion preference is realised as at most one injected
    style element, and how `importAll` normalises and reloads a backup. */
module Settings {
  import opened Wrappers
  import Text
  import opened SchemaTypes
  import Db

  // ---------------------------------------------------------------------
  // getCurrentLocale

  /** The part of a locale before its first `-`. */
  function Language(locale: string): string
  {
    Text.Split(locale, '-')[0]
  }

  /** `getCurrentLocale()`: the stored locale when it is known, else its
      language when that is known, else `"en-US"`. `known` is the set of
      keys of `locales`. */
  function GetCurrentLocale(stored: string, known: set<string>): (r: string)
    ensures stored in known ==> r == stored
    ensures stored !in known && Language(stored) in known ==> r == Language(stored)
    ensures stored !in known && Language(stored) !in known ==> r == "en-US"
  {
    if stored in known then stored
    else if Language(stored) in known then Language(stored)
    else "en-US"
  }

  /** The language is the longest `-`-free prefix of the locale. */
  lemma {:induction false} LanguageIsPrefix(locale: string)
    ensures Language(locale) <= locale
    ensures '-' !in Language(locale)
    ensures |Language(locale)| < |locale| ==> locale[|Language(locale)|] == '-'
    decreases |locale|
  {
    if |locale| > 0 {
      LanguageIsPrefix(locale[1..]);
    }
  }

  /** The locale chosen is always a known one or the fallback, and it is
      the stored locale or a prefix of it. */
  lemma LocaleIsKnownOrFallback(stored: string, known: set<string>)
    ensures GetCurrentLocale(stored, known) in known || GetCurrentLocale(stored, known) == "en-US"
    ensures GetCurrentLocale(stored, known) != "en-US" ==> GetCurrentLocale(stored, known) <= stored
  {
    LanguageIsPrefix(stored);
  }

  // ---------------------------------------------------------------------
  // applyAnimationMotionPref

  /** The preference in force: `System` follows the system's reduced-motion
      setting, any other preference is used as given. */
  function RealisedPref(pref: AnimationMotionPref, prefersReducedMotion: bool): (r: AnimationMotionPref)
    ensures r != System
    ensures pref != System ==> r == pref
    ensures pref == System ==> (r == Off <==> prefersReducedMotion) && (r == On <==> !prefersReducedMotion)
  {
    if pref != System then pref
    else if prefersReducedMotion then Off
    else On
  }

  /** The two injected style sheets: transitions off, or transitions and
      animations off. */
  datatype InjectedRule = TransitionsOff | TransitionsAndAnimationsOff

  /** An element of the document: one injected style, or anything else
      carrying some id. */
  datatype DocElement = InjectedStyle(rule: InjectedRule) | OtherElement(id: string)

  const MotionStyleId := "animation-motion-pref"

  function IdOf(e: DocElement): string
  {
    match e
    case InjectedStyle(_) => MotionStyleId
    case OtherElement(id) => id
  }

  /** How many elements carry the injected style's id. */
  function CountMotionStyles(elements: seq<DocElement>): nat
  {
    if elements == [] then 0
    else (if IdOf(elements[0]) == MotionStyleId then 1 else 0) + CountMotionStyles(elements[1..])
  }

  /** `document.querySelector("#animation-motion-pref")?.remove()`: the
      first element with that id goes. */
  function WithoutFirstMotionStyle(elements: seq<DocElement>): seq<DocElement>
  {
    if elements == [] then []
    else if IdOf(elements[0]) == MotionStyleId then elements[1..]
    else [elements[0]] + WithoutFirstMotionStyle(elements[1..])
  }

  /** The style a realised preference injects, if any. */
  function RuleFor(pref: AnimationMotionPref): (r: Option<InjectedRule>)
  {
    match pref
    case Off => Some(TransitionsAndAnimationsOff)
    case Reduced => Some(TransitionsOff)
    case _ => None
  }

  /** Removing the first styled element lowers the count by one, when
      there is one. */
  lemma {:induction false} RemovalCount(elements: seq<DocElement>)
    ensures CountMotionStyles(WithoutFirstMotionStyle(elements))
         == if CountMotionStyles(elements) == 0 then 0 else CountMotionStyles(elements) - 1
    decreases |elements|
  {
    if elements != [] && IdOf(elements[0]) != MotionStyleId {
      RemovalCount(elements[1..]);
      assert ([elements[0]] + WithoutFirstMotionStyle(elements[1..]))[1..] == WithoutFirstMotionStyle(elements[1..]);
    }
  }

  lemma {:induction false} CountAppend(a: seq<DocElement>, b: seq<DocElement>)
    ensures CountMotionStyles(a + b) == CountMotionStyles(a) + CountMotionStyles(b)
    decreases |a|
  {
    if a != [] {
      CountAppend(a[1..], b);
      assert (a + b)[1..] == a[1..] + b;
    } else {
      assert a + b == b;
    }
  }

  /** The children of `document.head`, where `head.append` puts the
      injected style; the motion style is one of them at most. */
  class Document {
    var elements: seq<DocElement>

    ghost predicate Valid()
      reads this
    {
      CountMotionStyles(elements) <= 1
    }

    constructor (initial: seq<DocElement>)
      ensures elements == initial
    {
      elements := initial;
    }

    /** `resetInjectedTransitionCSS()`. */
    method ResetInjectedTransitionCss()
      modifies this
      ensures elements == WithoutFirstMotionStyle(old(elements))
    {
      elements := WithoutFirstMotionStyle(elements);
    }

    /** `injectReducedTransitionCSS()` and `injectNoTransitionCSS()`: a new
        style appended to the head. */
    method InjectStyle(rule: InjectedRule)
      modifies this
      ensures elements == old(elements) + [InjectedStyle(rule)]
    {
      elements := elements + [InjectedStyle(rule)];
    }

    /** `applyAnimationMotionPref()` with the stored preference and the
        system's reduced-motion setting as parameters: the old style goes,
        then the realised preference's style, if any, is appended. */
    method ApplyAnimationMotionPref(pref: AnimationMotionPref, prefersReducedMotion: bool)
      modifies this
      ensures old(Valid()) ==> Valid()
      ensures var kept := WithoutFirstMotionStyle(old(elements));
        match RuleFor(RealisedPref(pref, prefersReducedMotion))
        case None => elements == kept
        case Some(rule) => elements == kept + [InjectedStyle(rule)]
    {
      var realised := RealisedPref(pref, prefersReducedMotion);
      if Valid() {
        AppliedPreferenceShape(elements, pref, prefersReducedMotion);
      }
      ResetInjectedTransitionCss();
      match realised
      case Off => InjectStyle(TransitionsAndAnimationsOff);
      case Reduced => InjectStyle(TransitionsOff);
      case _ =>
    }
  }

  /** Applying a preference to a document with at most one motion style
      leaves exactly the style the realised preference asks for: none for
      On, one otherwise. */
  lemma AppliedPreferenceShape(elements: seq<DocElement>, pref: AnimationMotionPref, prefersReducedMotion: bool)
    requires CountMotionStyles(elements) <= 1
    ensures var kept := WithoutFirstMotionStyle(elements);
      var after := match RuleFor(RealisedPref(pref, prefersReducedMotion))
        case None => kept
        case Some(rule) => kept + [InjectedStyle(rule)];
      CountMotionStyles(kept) == 0
      && CountMotionStyles(after) == (if RealisedPref(pref, prefersReducedMotion) == On then 0 else 1)
  {
    var kept := WithoutFirstMotionStyle(elements);
    RemovalCount(elements);
    match RuleFor(RealisedPref(pref, prefersReducedMotion))
    case None =>
    case Some(rule) =>
      CountAppend(kept, [InjectedStyle(rule)]);
  }

  // ---------------------------------------------------------------------
  // importAll

  /** `SourceTextDirection.LTR`, the first member of the enum. */
  const LTR := 0

  /** A source as a backup file holds it; `textDir` and `hidden` may be
      missing. */
  datatype ImportedSource = ImportedSource(
    sid: int,
    url: string,
    iconurl: Option<string>,
    name: string,
    openTarget: int,
    lastFetched: Option<int>,
    serviceRef: Option<string>,
    fetchFrequency: int,
    rules: Option<seq<Db.SourceRule>>,
    textDir: Option<int>,
    hidden: Option<bool>)

  /** The source record `importAll` adds: a missing or zero `textDir`
      becomes LTR and a missing or false `hidden` becomes false. */
  function NormalizeImportedSource(s: ImportedSource): (r: Db.SourceEntry)
    ensures (s.textDir.None? || s.textDir == Some(0)) ==> r.textDir == LTR
    ensures s.textDir.Some? && s.textDir.value != 0 ==> r.textDir == s.textDir.value
    ensures r.hidden <==> s.hidden == Some(true)
    ensures r.sid == s.sid && r.url == s.url && r.name == s.name && r.iconurl == s.iconurl
    ensures r.lastFetched == s.lastFetched && r.serviceRef == s.serviceRef && r.rules == s.rules
    ensures r.openTarget == s.openTarget && r.fetchFrequency == s.fetchFrequency
  {
    Db.SourceEntry(s.sid, s.url, s.iconurl, s.name, s.openTarget, s.lastFetched, s.serviceRef,
                   s.fetchFrequency, s.rules,
                   if s.textDir.None? || s.textDir.value == 0 then LTR else s.textDir.value,
                   s.hidden == Some(true))
  }

  /** `configs.database.sources.forEach(…)`'s normalisation of each record. */
  function NormalizeAll(ss: seq<ImportedSource>): (r: seq<Db.SourceEntry>)
    ensures |r| == |ss| && forall i :: 0 <= i < |ss| ==> r[i] == NormalizeImportedSource(ss[i])
  {
    seq(|ss|, i requires 0 <= i < |ss| => NormalizeImportedSource(ss[i]))
  }

  /** The `database` part of a backup. */
  datatype ExportData = ExportData(sources: seq<ImportedSource>, items: seq<Db.ItemEntry>)

  /** The sources added one by one; a refused add is ignored. */
  function AddAll(s: Db.SourcesState, entries: seq<Db.SourceEntry>): Db.SourcesState
    decreases |entries|
  {
    if entries == [] then s
    else AddAll(Db.AddSource(s, entries[0]).0, entries[1..])
  }

  /** Adding sources one by one keeps the table's invariant and its old
      rows; every added url or key is then present, and every new row is
      one of the entries under its own sid, or under a generated key when
      it had none. */
  lemma {:induction false} AddAllSpec(s: Db.SourcesState, entries: seq<Db.SourceEntry>)
    requires Db.SourcesInvariant(s.rows, s.nextKey)
    ensures var t := AddAll(s, entries);
      Db.SourcesInvariant(t.rows, t.nextKey)
      && (forall k :: k in s.rows ==> k in t.rows && t.rows[k] == s.rows[k])
      && (forall e :: e in entries ==> Db.HasUrl(t.rows, e.url) || e.sid in t.rows)
      && (forall k :: k in t.rows && k !in s.rows ==> exists e :: e in entries && (e.sid == 0 || e.sid == k) && t.rows[k] == e.(sid := k))
    decreases |entries|
  {
    if entries != [] {
      var e0 := entries[0];
      var (s1, r) := Db.AddSource(s, e0);
      Db.AddSourceKeepsInvariant(s, e0);
      AddAllSpec(s1, entries[1..]);
      var t := AddAll(s, entries);
      assert t == AddAll(s1, entries[1..]);
      forall e | e in entries ensures Db.HasUrl(t.rows, e.url) || e.sid in t.rows {
        if e == e0 {
          var key := Db.KeyFor(e0.sid, s.nextKey);
          if r.Ok? {
            assert s1.rows[key].url == e0.url;
            assert t.rows[key].url == e0.url;
          } else if key in s.rows {
            assert e0.sid != 0;
            assert e0.sid in t.rows;
          } else {
            var k :| k in s.rows && s.rows[k].url == e0.url;
            assert t.rows[k].url == e0.url;
          }
        } else {
          assert e in entries[1..];
        }
      }
      forall k | k in t.rows && k !in s.rows ensures exists e :: e in entries && (e.sid == 0 || e.sid == k) && t.rows[k] == e.(sid := k) {
        if k in s1.rows {
          assert t.rows[k] == s1.rows[k] == e0.(sid := k);
        } else {
          var e :| e in entries[1..] && (e.sid == 0 || e.sid == k) && t.rows[k] == e.(sid := k);
          assert e in entries;
        }
      }
    }
  }

  datatype ImportError = ItemsRejected

  /** `importAll()` with the file's contents and the user's answer as
      parameters: `Ok(true)` and no change when there is nothing to import
      or the user declines; otherwise both tables are cleared, every
      normalised source is added (refusals ignored), the items are bulk
      added, and `Ok(false)` is returned unless that bulk add rejects. */
  method ImportAll(data: Option<ExportData>, confirmed: bool, sources: Db.SourcesTable, items: Db.ItemsTable)
    returns (r: Result<bool, ImportError>)
    requires sources.Valid() && items.Valid()
    modifies sources, items
    ensures sources.Valid() && items.Valid()
    ensures data.None? || !confirmed ==>
      r == Ok(true) && sources.State() == old(sources.State()) && items.State() == old(items.State())
    ensures data.Some? && confirmed ==>
      var normalised := NormalizeAll(data.value.sources);
      var (t, _, ok) := Db.BulkAdded(Db.ItemsState(map[], old(items.nextKey)), data.value.items);
      sources.State() == AddAll(Db.SourcesState(map[], old(sources.nextKey)), normalised)
      && items.State() == t
      && r == (if ok then Ok(false) else Err(ItemsRejected))
  {
    if data.None? || !confirmed {
      return Ok(true);
    }
    sources.Clear();
    items.Clear();
    var imported := data.value.sources;
    ghost var normalised := NormalizeAll(imported);
    ghost var start := sources.State();
    for i := 0 to |imported|
      invariant sources.Valid()
      invariant items.State() == Db.ItemsState(map[], old(items.nextKey))
      invariant AddAll(sources.State(), normalised[i..]) == AddAll(start, normalised)
    {
      assert normalised[i..][1..] == normalised[i + 1..];
      var _ := sources.Add(NormalizeImportedSource(imported[i]));
    }
    assert normalised[|imported|..] == [];
    assert sources.State() == AddAll(start, normalised);
    var _, ok := items.BulkAdd(data.value.items);
    assert sources.State() == AddAll(start, normalised);
    if !ok {
      return Err(ItemsRejected);
    }
    return Ok(false);
  }
}
