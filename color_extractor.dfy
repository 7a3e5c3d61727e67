/**
 * The wallpaper colour cache of ColorExtractor: six slots, each holding the last raw colour
 * sample and three GradientColors objects derived from it, plus a list of weakly held
 * listeners that are told, once per change, which `which` bitmask arrived.
 */
module ColorExtraction {
  import opened Wrappers
  import opened JavaTypes

  // ---------------------------------------------------------------------------------------
  // Values

  /**
   * A raw colour sample of one wallpaper surface (android.app.WallpaperColors): three colours
   * and a hints word. The extractor never looks inside it.
   */
  datatype WallpaperColors = WallpaperColors(primary: int32, secondary: int32, tertiary: int32, colorHints: int32)

  /** The value held by one GradientColors object. */
  datatype Gradient = Gradient(mainColor: int32, secondaryColor: int32, supportsDarkText: bool)

  /** What one derivation pass writes into a slot's NORMAL, DARK and EXTRA_DARK objects. */
  datatype Variants = Variants(normal: Gradient, dark: Gradient, extraDark: Gradient)

  /**
   * The derivation strategy (ExtractionType, normally Tonal). Its colour maths is not part of
   * this model: it is any deterministic function of the (possibly null) sample.
   */
  type ExtractionType = Option<WallpaperColors> -> Variants

  /** What the wallpaper manager reports at construction for FLAG_SYSTEM and FLAG_LOCK. */
  datatype WallpaperManager = WallpaperManager(systemColors: Option<WallpaperColors>, lockColors: Option<WallpaperColors>)

  /** The resource IDs of the four "tint off" colours the tint slots start from. */
  datatype TintOffColors = TintOffColors(lockscreen: int32, recents: int32, statusBar: int32, powerMenu: int32)

  /** The context's colour resources: the ARGB colour a colour resource ID holds. */
  type ColorResources = int32 -> int32

  /** The alpha byte of an ARGB colour int. */
  function Alpha(argb: int32): (a: nat)
    ensures a < 256
  {
    (argb as int % TWO_TO_THE_32) / 0x100_0000
  }

  /** The exceptions the strict lookups throw. */
  datatype IllegalArgumentException = InvalidType(gradientType: int32) | InvalidWhich(which: bv32)

  const TYPE_NORMAL: int32 := 0
  const TYPE_DARK: int32 := 1
  const TYPE_EXTRA_DARK: int32 := 2

  /** WallpaperManager.FLAG_SYSTEM and FLAG_LOCK. */
  const FLAG_SYSTEM: bv32 := 1
  const FLAG_LOCK: bv32 := 2
  /** The tint flags. 3, 5 and 6 are not single bits, so the `&` tests overlap. */
  const FLAG_LOCKTINT: bv32 := 3
  const FLAG_RECENTSTINT: bv32 := 4
  const FLAG_STATUSBARTINT: bv32 := 5
  const FLAG_POWERMENUTINT: bv32 := 6

  /** The six slots; `Flag` gives the constant each is keyed by. */
  datatype Slot = Lock | System | LockTint | RecentsTint | StatusbarTint | PowermenuTint

  /** The slots in the order the constructor creates them. */
  const AllSlots: seq<Slot> := [Lock, System, LockTint, RecentsTint, StatusbarTint, PowermenuTint]

  lemma AllSlotsListed()
    ensures forall s: Slot :: s in AllSlots
  {
    forall s: Slot
      ensures s in AllSlots
    {
      match s
      case Lock => assert AllSlots[0] == s;
      case System => assert AllSlots[1] == s;
      case LockTint => assert AllSlots[2] == s;
      case RecentsTint => assert AllSlots[3] == s;
      case StatusbarTint => assert AllSlots[4] == s;
      case PowermenuTint => assert AllSlots[5] == s;
    }
  }

  function Flag(s: Slot): bv32 {
    match s
    case Lock => FLAG_LOCK
    case System => FLAG_SYSTEM
    case LockTint => FLAG_LOCKTINT
    case RecentsTint => FLAG_RECENTSTINT
    case StatusbarTint => FLAG_STATUSBARTINT
    case PowermenuTint => FLAG_POWERMENUTINT
  }

  const SlotFlags: set<bv32> := {FLAG_LOCK, FLAG_SYSTEM, FLAG_LOCKTINT, FLAG_RECENTSTINT, FLAG_STATUSBARTINT, FLAG_POWERMENUTINT}

  /** The slot a `which` value names, when it is exactly one of the six constants. */
  function SlotOf(which: bv32): (r: Option<Slot>)
    ensures r.Some? <==> which in SlotFlags
    ensures r.Some? ==> Flag(r.value) == which
    ensures forall s: Slot :: Flag(s) == which ==> r == Some(s)
  {
    if which == FLAG_LOCK then Some(Lock)
    else if which == FLAG_SYSTEM then Some(System)
    else if which == FLAG_LOCKTINT then Some(LockTint)
    else if which == FLAG_RECENTSTINT then Some(RecentsTint)
    else if which == FLAG_STATUSBARTINT then Some(StatusbarTint)
    else if which == FLAG_POWERMENUTINT then Some(PowermenuTint)
    else None
  }

  /** The test onColorsChanged applies to slot `s`: `(which & FLAG) != 0`. */
  predicate Refreshes(which: bv32, s: Slot) {
    which & Flag(s) != 0
  }

  /** The `changed` flag of onColorsChanged: at least one of the six tests matched. */
  predicate Changed(which: bv32) {
    which & FLAG_LOCK != 0 || which & FLAG_SYSTEM != 0 || which & FLAG_LOCKTINT != 0
    || which & FLAG_RECENTSTINT != 0 || which & FLAG_STATUSBARTINT != 0 || which & FLAG_POWERMENUTINT != 0
  }

  /** Only the low three bits matter: no test matches when `which & 7 == 0`. */
  lemma ChangedIffLowBits(which: bv32)
    ensures Changed(which) <==> which & 7 != 0
  {
  }

  /** The overlaps of the tests: each single-bit value refreshes three slots. */
  lemma SingleBitsRefresh()
    ensures forall s: Slot :: Refreshes(FLAG_SYSTEM, s) <==> s == System || s == LockTint || s == StatusbarTint
    ensures forall s: Slot :: Refreshes(FLAG_LOCK, s) <==> s == Lock || s == LockTint || s == PowermenuTint
    ensures forall s: Slot :: Refreshes(FLAG_RECENTSTINT, s) <==> s == RecentsTint || s == StatusbarTint || s == PowermenuTint
  {
  }

  /** One value for each of the six slots. */
  datatype PerSlot<T> = PerSlot(lock: T, system: T, lockTint: T, recentsTint: T, statusbarTint: T, powermenuTint: T) {
    function At(s: Slot): T {
      match s
      case Lock => lock
      case System => system
      case LockTint => lockTint
      case RecentsTint => recentsTint
      case StatusbarTint => statusbarTint
      case PowermenuTint => powermenuTint
    }

    /** This with the value of slot `s` replaced by `v`. */
    function With(s: Slot, v: T): (r: PerSlot<T>)
      ensures r.At(s) == v
      ensures forall x: Slot | x != s :: r.At(x) == At(x)
    {
      match s
      case Lock => this.(lock := v)
      case System => this.(system := v)
      case LockTint => this.(lockTint := v)
      case RecentsTint => this.(recentsTint := v)
      case StatusbarTint => this.(statusbarTint := v)
      case PowermenuTint => this.(powermenuTint := v)
    }

    /** This with `v` in slot `s` when its test on `which` matches: one block of onColorsChanged. */
    function RefreshedIf(s: Slot, which: bv32, v: T): PerSlot<T> {
      if Refreshes(which, s) then With(s, v) else this
    }

    /** This with `v` in every slot whose test on `which` matches. */
    function Refreshed(which: bv32, v: T): PerSlot<T> {
      PerSlot(
        if Refreshes(which, Lock) then v else lock,
        if Refreshes(which, System) then v else system,
        if Refreshes(which, LockTint) then v else lockTint,
        if Refreshes(which, RecentsTint) then v else recentsTint,
        if Refreshes(which, StatusbarTint) then v else statusbarTint,
        if Refreshes(which, PowermenuTint) then v else powermenuTint)
    }
  }

  /** After Refreshed, a slot holds `v` exactly when its test on `which` matched. */
  lemma RefreshedAt<T>(p: PerSlot<T>, which: bv32, v: T, s: Slot)
    ensures p.Refreshed(which, v).At(s) == if Refreshes(which, s) then v else p.At(s)
  {
  }

  /** The six blocks of onColorsChanged, in their order, refresh exactly the matching slots. */
  lemma RefreshedInOrder<T>(p: PerSlot<T>, which: bv32, v: T)
    ensures p.Refreshed(which, v)
      == p.RefreshedIf(Lock, which, v).RefreshedIf(System, which, v).RefreshedIf(LockTint, which, v)
          .RefreshedIf(RecentsTint, which, v).RefreshedIf(StatusbarTint, which, v).RefreshedIf(PowermenuTint, which, v)
  {
  }

  /** Deriving after refreshing is refreshing with the derived value. */
  lemma DeriveAllRefreshed(e: ExtractionType, samples: PerSlot<Option<WallpaperColors>>, which: bv32, colors: Option<WallpaperColors>)
    ensures DeriveAll(e, samples.Refreshed(which, colors)) == DeriveAll(e, samples).Refreshed(which, Derive(e, colors))
  {
  }

  /** `changed` is set exactly when the test of some slot matched. */
  lemma ChangedIffSomeSlot(which: bv32)
    ensures Changed(which) <==> exists s: Slot :: Refreshes(which, s)
  {
    if Changed(which) {
      // The composite constants 3, 5 and 6 share their bits with 1, 2 and 4.
      if which & FLAG_LOCK != 0 {
        assert Refreshes(which, Lock);
      } else if which & FLAG_SYSTEM != 0 {
        assert Refreshes(which, System);
      } else {
        assert Refreshes(which, RecentsTint);
      }
    } else {
      forall s: Slot ensures !Refreshes(which, s) {
        NoTestMatched(which, s);
      }
    }
  }

  /** Every slot constant lies within the low three bits. */
  lemma FlagInLowBits(s: Slot)
    ensures Flag(s) & 7 == Flag(s)
  {
  }

  lemma LowBitsClear(which: bv32, f: bv32)
    requires which & 7 == 0 && f & 7 == f
    ensures which & f == 0
  {
  }

  /** When `changed` stays false, no slot's test matched. */
  lemma NoTestMatched(which: bv32, s: Slot)
    requires !Changed(which)
    ensures !Refreshes(which, s)
  {
    ChangedIffLowBits(which);
    FlagInLowBits(s);
    LowBitsClear(which, Flag(s));
  }

  /** What strategy `e` derives from one sample. */
  function Derive(e: ExtractionType, colors: Option<WallpaperColors>): Variants {
    e(colors)
  }

  /** What strategy `e` derives from each slot's sample. */
  function DeriveAll(e: ExtractionType, samples: PerSlot<Option<WallpaperColors>>): PerSlot<Variants> {
    PerSlot(Derive(e, samples.lock), Derive(e, samples.system), Derive(e, samples.lockTint),
            Derive(e, samples.recentsTint), Derive(e, samples.statusbarTint), Derive(e, samples.powermenuTint))
  }

  /** The samples the slots hold right after construction. */
  function InitialSamples(manager: Option<WallpaperManager>, resources: ColorResources, tintOff: TintOffColors): PerSlot<Option<WallpaperColors>> {
    PerSlot(
      if manager.Some? then manager.value.lockColors else None,
      if manager.Some? then manager.value.systemColors else None,
      Some(TintOffSample(resources, tintOff.lockscreen)),
      Some(TintOffSample(resources, tintOff.recents)),
      Some(TintOffSample(resources, tintOff.statusBar)),
      Some(TintOffSample(resources, tintOff.powerMenu)))
  }

  /** A tint-off default: the same colour three times and no hints. */
  function TintOffSample(resources: ColorResources, resourceId: int32): (s: WallpaperColors)
    ensures s.colorHints == 0
    ensures s.primary == s.secondary == s.tertiary == resources(resourceId)
  {
    var color := resources(resourceId);
    WallpaperColors(color, color, color, 0)
  }

  /**
   * The tint-off default as the field initialisers write it: `Color.valueOf` applied to the
   * resource ID itself, so the ID's bits are read as an ARGB colour and no resource is read.
   */
  function TintOffSampleAsWritten(resourceId: int32): (s: WallpaperColors)
    ensures s.primary == s.secondary == s.tertiary == resourceId && s.colorHints == 0
  {
    WallpaperColors(resourceId, resourceId, resourceId, 0)
  }

  /**
   * Framework resource IDs carry package 0x01 in their top byte, so the as-written default
   * is a colour with alpha 1 out of 255, whatever colour the resource holds.
   */
  lemma FrameworkIdIsNearlyTransparent(resourceId: int32)
    requires 0x0100_0000 <= resourceId as int < 0x0200_0000
    ensures Alpha(TintOffSampleAsWritten(resourceId).primary) == 1
  {
  }

  /** A framework resource holding opaque black gives a different default as written. */
  lemma TintOffReadsIdAsColor(resources: ColorResources)
    requires resources(0x0106_000C) == -0x100_0000
    ensures Alpha(TintOffSample(resources, 0x0106_000C).primary) == 0xFF
    ensures Alpha(TintOffSampleAsWritten(0x0106_000C).primary) == 1
    ensures TintOffSample(resources, 0x0106_000C) != TintOffSampleAsWritten(0x0106_000C)
  {
    FrameworkIdIsNearlyTransparent(0x0106_000C);
  }

  /** With resources that map every ID to itself, the tint slots start as the initialisers write them. */
  lemma IdentityResourcesGiveAsWritten(manager: Option<WallpaperManager>, tintOff: TintOffColors)
    ensures var samples := InitialSamples(manager, x => x, tintOff);
      && samples.lockTint == Some(TintOffSampleAsWritten(tintOff.lockscreen))
      && samples.recentsTint == Some(TintOffSampleAsWritten(tintOff.recents))
      && samples.statusbarTint == Some(TintOffSampleAsWritten(tintOff.statusBar))
      && samples.powermenuTint == Some(TintOffSampleAsWritten(tintOff.powerMenu))
  {
  }

  // ---------------------------------------------------------------------------------------
  // GradientColors

  /** A mutable pair of gradient colours with a dark-text hint (ColorExtractor.GradientColors). */
  class GradientColors {
    var mainColor: int32
    var secondaryColor: int32
    var supportsDarkText: bool

    constructor ()
      ensures Value() == Gradient(0, 0, false)
    {
      mainColor, secondaryColor, supportsDarkText := 0, 0, false;
    }

    /** The value this object holds. */
    function Value(): Gradient
      reads this
    {
      Gradient(mainColor, secondaryColor, supportsDarkText)
    }

    method SetMainColor(color: int32)
      modifies this
      ensures Value() == old(Value()).(mainColor := color)
    {
      mainColor := color;
    }

    method SetSecondaryColor(color: int32)
      modifies this
      ensures Value() == old(Value()).(secondaryColor := color)
    {
      secondaryColor := color;
    }

    method SetSupportsDarkText(supports: bool)
      modifies this
      ensures Value() == old(Value()).(supportsDarkText := supports)
    {
      supportsDarkText := supports;
    }

    /** Copies all three fields of `other`. */
    method Set(other: GradientColors)
      modifies this
      ensures Value() == old(other.Value())
    {
      mainColor := other.mainColor;
      secondaryColor := other.secondaryColor;
      supportsDarkText := other.supportsDarkText;
    }

    /** Structural equality; null is never equal. */
    predicate Equals(o: GradientColors?)
      reads this, o
      ensures Equals(o) <==> o != null && o.Value() == Value()
    {
      o != null && o.mainColor == mainColor && o.secondaryColor == secondaryColor
      && o.supportsDarkText == supportsDarkText
    }

    /**
     * Java's `31 * code + field` hash over the three fields, in 32-bit arithmetic: the
     * polynomial 31^2 * main + 31 * secondary + (dark ? 0 : 1) wrapped once.
     */
    function HashCode(): (h: int32)
      reads this
      ensures h == Wrap32(961 * mainColor as int + 31 * secondaryColor as int + (if supportsDarkText then 0 else 1))
    {
      var code := Wrap32(31 * mainColor as int + secondaryColor as int);
      Wrap32MulAdd31(31 * mainColor as int + secondaryColor as int, if supportsDarkText then 0 else 1);
      Wrap32(31 * code as int + (if supportsDarkText then 0 else 1))
    }
  }

  /** hashCode agrees with equals. */
  lemma EqualsImpliesSameHashCode(a: GradientColors, b: GradientColors)
    requires a.Equals(b)
    ensures b.Equals(a)
    ensures a.HashCode() == b.HashCode()
  {
  }

  /** Two gradients that differ only in the dark-text hint never share a hash code. */
  lemma HashCodeSeparatesDarkText(a: GradientColors, b: GradientColors)
    requires a.mainColor == b.mainColor && a.secondaryColor == b.secondaryColor
    requires a.supportsDarkText != b.supportsDarkText
    ensures a.HashCode() != b.HashCode()
  {
  }

  // ---------------------------------------------------------------------------------------
  // Listeners

  /** A registered OnColorsChangedListener; only its identity matters to the extractor. */
  class Listener { }

  /**
   * A java.lang.ref.WeakReference to a listener. The garbage collector may clear it at any
   * time; `Clear` is that event.
   */
  class WeakReference {
    var referent: Listener?

    constructor (listener: Listener)
      ensures referent == listener
    {
      referent := listener;
    }

    function Get(): Listener?
      reads this
    {
      referent
    }

    /** The referent was collected. */
    method Clear()
      modifies this
      ensures referent == null
    {
      referent := null;
    }
  }

  /** One call `listener.onColorsChanged(extractor, which)`. */
  datatype Callback = Callback(listener: Listener, which: bv32)

  /** No element occurs twice: none equals one before it. */
  ghost predicate Distinct<T>(s: seq<T>) {
    forall k | 0 <= k < |s| :: s[k] !in s[..k]
  }

  /** ArrayList.remove(Object): drops the first element equal to `x`, if any. */
  function RemoveFirst<T(==)>(s: seq<T>, x: T): (r: seq<T>)
    ensures x !in s ==> r == s
    ensures x in s ==> |r| == |s| - 1
  {
    if s == [] then []
    else if s[0] == x then s[1..]
    else [s[0]] + RemoveFirst(s[1..], x)
  }

  /** Removing the first occurrence of `x`, when all before it differ from it. */
  lemma {:induction false} RemoveFirstSkips<T>(a: seq<T>, x: T, b: seq<T>)
    requires x !in a
    ensures RemoveFirst(a + [x] + b, x) == a + b
  {
    if a == [] {
      assert a + [x] + b == [x] + b;
    } else {
      assert (a + [x] + b)[1..] == a[1..] + [x] + b;
      RemoveFirstSkips(a[1..], x, b);
      assert a == [a[0]] + a[1..];
    }
  }

  /** Dropping one element keeps a list free of repeats. */
  lemma RemoveAtDistinct<T>(s: seq<T>, k: nat)
    requires Distinct(s) && k < |s|
    ensures Distinct(s[..k] + s[k + 1..])
  {
    var r := s[..k] + s[k + 1..];
    forall m | 0 <= m < |r|
      ensures r[m] !in r[..m]
    {
      if m < k {
        assert r[..m] == s[..m];
      } else {
        assert r[m] == s[m + 1];
        assert forall n | 0 <= n < m :: r[n] in s[..m + 1];
      }
    }
  }

  /** The references of `refs` whose referent is still live, in order. */
  function Pruned(refs: seq<WeakReference>): seq<WeakReference>
    reads refs
  {
    if refs == [] then []
    else
      var last := refs[|refs| - 1];
      Pruned(refs[..|refs| - 1]) + (if last.referent != null then [last] else [])
  }

  /** The callbacks one pass over `refs` makes: each live referent, in order. */
  function Notifications(refs: seq<WeakReference>, which: bv32): seq<Callback>
    reads refs
  {
    if refs == [] then []
    else
      var last := refs[|refs| - 1];
      Notifications(refs[..|refs| - 1], which) + (if last.referent != null then [Callback(last.referent, which)] else [])
  }

  /** One more reference: pruning and the pass each look at it last. */
  lemma PrunedSnoc(refs: seq<WeakReference>, r: WeakReference, which: bv32)
    ensures Pruned(refs + [r]) == Pruned(refs) + (if r.referent != null then [r] else [])
    ensures Notifications(refs + [r], which) == Notifications(refs, which) + (if r.referent != null then [Callback(r.referent, which)] else [])
  {
    assert (refs + [r])[..|refs|] == refs;
  }

  /**
   * One step of triggerColorsChanged's pass over `references`, with `current` the list
   * after the first `i` steps: step `i` removes references[i] if it was cleared, and
   * otherwise makes one callback.
   */
  lemma PassStep(references: seq<WeakReference>, i: nat, current: seq<WeakReference>, which: bv32)
    requires i < |references| && Distinct(references)
    requires current == Pruned(references[..i]) + references[i..]
    ensures references[i].referent == null ==> RemoveFirst(current, references[i]) == Pruned(references[..i + 1]) + references[i + 1..]
    ensures references[i].referent != null ==> current == Pruned(references[..i + 1]) + references[i + 1..]
    ensures Notifications(references[..i + 1], which) == Notifications(references[..i], which)
      + (if references[i].referent != null then [Callback(references[i].referent, which)] else [])
  {
    var w := references[i];
    var done := references[..i];
    assert references[..i + 1] == done + [w];
    assert references[i..] == [w] + references[i + 1..];
    PrunedSnoc(done, w, which);
    assert current == Pruned(done) + [w] + references[i + 1..];
    if w.referent == null {
      PrunedMembers(done);
      assert w !in done;
      RemoveFirstSkips(Pruned(done), w, references[i + 1..]);
      assert Pruned(references[..i + 1]) == Pruned(done);
    } else {
      assert Pruned(references[..i + 1]) == Pruned(done) + [w];
    }
  }

  /** Pruning keeps exactly the live references. */
  lemma {:induction false} PrunedMembers(refs: seq<WeakReference>)
    ensures forall r :: r in Pruned(refs) <==> r in refs && r.referent != null
  {
    if refs != [] {
      var init := refs[..|refs| - 1];
      PrunedMembers(init);
      assert refs == init + [refs[|refs| - 1]];
    }
  }

  /** Pruning keeps the references distinct. */
  lemma {:induction false} PrunedDistinct(refs: seq<WeakReference>)
    requires Distinct(refs)
    ensures Distinct(Pruned(refs))
  {
    if refs != [] {
      var init := refs[..|refs| - 1];
      var last := refs[|refs| - 1];
      assert Distinct(init) by {
        forall k | 0 <= k < |init|
          ensures init[k] !in init[..k]
        {
          assert init[..k] == refs[..k];
        }
      }
      PrunedDistinct(init);
      if last.referent != null {
        PrunedMembers(init);
        assert last !in init;
        var p := Pruned(init);
        forall k | 0 <= k < |p + [last]|
          ensures (p + [last])[k] !in (p + [last])[..k]
        {
          if k < |p| {
            assert (p + [last])[..k] == p[..k];
          } else {
            assert (p + [last])[..k] == p;
          }
        }
      }
    }
  }

  /** Each callback of a pass goes to the matching pruned reference's listener. */
  lemma {:induction false} NotificationsFollowPruned(refs: seq<WeakReference>, which: bv32)
    ensures |Notifications(refs, which)| == |Pruned(refs)|
    ensures forall k | 0 <= k < |Pruned(refs)| ::
      Pruned(refs)[k].referent != null && Notifications(refs, which)[k] == Callback(Pruned(refs)[k].referent, which)
  {
    if refs != [] {
      NotificationsFollowPruned(refs[..|refs| - 1], which);
    }
  }

  /** The index of the first reference to `listener`, or |refs| when there is none. */
  function IndexOfReferent(refs: seq<WeakReference>, listener: Listener): (k: nat)
    reads refs
    ensures k <= |refs|
    ensures forall j | 0 <= j < k :: refs[j].referent != listener
    ensures k < |refs| ==> refs[k].referent == listener
  {
    if refs == [] then 0
    else if refs[0].referent == listener then 0
    else 1 + IndexOfReferent(refs[1..], listener)
  }

  /** `s` without its element at `k`; `s` itself when `k` is past its end. */
  function RemoveAt<T>(s: seq<T>, k: nat): seq<T> {
    if k < |s| then s[..k] + s[k + 1..] else s
  }

  // ---------------------------------------------------------------------------------------
  // The extractor

  /** A slot's three objects as they hold right after `new GradientColors()`. */
  const Blank := Variants(Gradient(0, 0, false), Gradient(0, 0, false), Gradient(0, 0, false))

  /** Variant `t` of `v`, for a table index `t`. */
  function VariantAt(v: Variants, t: int): Gradient
    requires 0 <= t < 3
  {
    if t == 0 then v.normal else if t == 1 then v.dark else v.extraDark
  }

  class ColorExtractor {
    const extractionType: ExtractionType
    /**
     * mGradientColors: the NORMAL, DARK and EXTRA_DARK objects of each slot. The source keys
     * this SparseArray by the slot's flag; here it is keyed by the slot itself.
     */
    const gradientColors: map<Slot, seq<GradientColors>>
    /** The GradientColors objects of the table, and the place each one sits at. */
    ghost const Repr: set<GradientColors>
    ghost const Position: map<GradientColors, (Slot, int)>

    var systemColors: Option<WallpaperColors>
    var lockColors: Option<WallpaperColors>
    var lockTintColors: Option<WallpaperColors>
    var recentsTintColors: Option<WallpaperColors>
    var statusbarTintColors: Option<WallpaperColors>
    var powermenuTintColors: Option<WallpaperColors>

    /** mOnColorsChangedListeners. */
    var listeners: seq<WeakReference>
    /** Every listener callback made so far, in order. */
    ghost var callbacks: seq<Callback>
    /** The values the three objects of each slot hold. */
    ghost var derived: PerSlot<Variants>

    /** Six slots of three objects each, each object at exactly one place, all in Repr. */
    ghost predicate TableShape() {
      IsTable(gradientColors, Position) && Repr == Position.Keys
    }

    /** The table is well formed, `derived` is what its objects hold, and no reference is listed twice. */
    ghost predicate Valid()
      reads this`derived, this`listeners, Repr
    {
      TableShape() && TableHolds() && Distinct(listeners)
    }

    /** Every object of the table holds its variant of `derived`. */
    ghost predicate TableHolds()
      reads this`derived, Repr
    {
      forall g | g in Repr && g in Position && 0 <= Position[g].1 < 3 ::
        g.Value() == VariantAt(derived.At(Position[g].0), Position[g].1)
    }

    /** The object holding variant `t` of slot `s`. */
    ghost function Cell(s: Slot, t: int): GradientColors
      requires TableShape() && 0 <= t < 3
    {
      gradientColors[s][t]
    }

    /** The samples the six slots currently hold. */
    ghost function Samples(): PerSlot<Option<WallpaperColors>>
      reads this
    {
      PerSlot(lockColors, systemColors, lockTintColors, recentsTintColors, statusbarTintColors, powermenuTintColors)
    }

    /** Every slot's three values are the strategy's output for that slot's sample. */
    ghost predicate Consistent()
      reads this
    {
      derived == DeriveAll(extractionType, Samples())
    }

    /** In a valid extractor each object of slot `s` holds its variant of `derived[s]`. */
    lemma CellHolds(s: Slot, t: int)
      requires Valid() && 0 <= t < 3
      ensures Cell(s, t) in Repr && Cell(s, t).Value() == VariantAt(derived.At(s), t)
    {
    }

    constructor (extractionType: ExtractionType, manager: Option<WallpaperManager>, resources: ColorResources, tintOff: TintOffColors)
      ensures Valid() && fresh(Repr)
      ensures this.extractionType == extractionType
      ensures listeners == [] && callbacks == []
      ensures Samples() == InitialSamples(manager, resources, tintOff)
      ensures Consistent()
    {
      this.extractionType := extractionType;
      lockTintColors := Some(TintOffSample(resources, tintOff.lockscreen));
      recentsTintColors := Some(TintOffSample(resources, tintOff.recents));
      statusbarTintColors := Some(TintOffSample(resources, tintOff.statusBar));
      powermenuTintColors := Some(TintOffSample(resources, tintOff.powerMenu));

      var table, position := NewGradientTable();
      gradientColors := table;
      Position := position;
      Repr := position.Keys;
      derived := PerSlot(Blank, Blank, Blank, Blank, Blank, Blank);
      listeners := [];
      callbacks := [];
      if manager.Some? {
        systemColors := manager.value.systemColors;
        lockColors := manager.value.lockColors;
      } else {
        systemColors := None;
        lockColors := None;
      }
      new;
      AllSlotsListed();
      assert forall t | 0 <= t < 3 :: VariantAt(Blank, t) == Gradient(0, 0, false);
      ExtractAll();
    }

    /**
     * TableShape() for a given table and position map: six slots of three objects each, and
     * the position map a bijection between the objects and the places (slot, type).
     */
    static ghost predicate IsTable(table: map<Slot, seq<GradientColors>>, position: map<GradientColors, (Slot, int)>) {
      && (forall s: Slot :: s in table && |table[s]| == 3)
      && (forall s: Slot, t | 0 <= t < 3 :: table[s][t] in position && position[table[s][t]] == (s, t))
      && (forall g | g in position :: 0 <= position[g].1 < 3 && table[position[g].0][position[g].1] == g)
    }

    /** The nested loops of the constructor: three new GradientColors for each slot flag. */
    static method NewGradientTable() returns (table: map<Slot, seq<GradientColors>>, ghost position: map<GradientColors, (Slot, int)>)
      ensures IsTable(table, position) && fresh(position.Keys)
      ensures forall g | g in position :: g.Value() == Gradient(0, 0, false)
    {
      // FLAG_LOCK, FLAG_SYSTEM, FLAG_LOCKTINT, FLAG_RECENTSTINT, FLAG_STATUSBARTINT, FLAG_POWERMENUTINT
      var order := AllSlots;
      table := map[];
      position := map[];
      for k := 0 to |order|
        invariant forall s :: s in table <==> s in order[..k]
        invariant forall s | s in table :: |table[s]| == 3
        invariant forall s, t | s in table && 0 <= t < 3 :: table[s][t] in position && position[table[s][t]] == (s, t)
        invariant forall g | g in position ::
          position[g].0 in table && 0 <= position[g].1 < 3 && table[position[g].0][position[g].1] == g
        invariant forall g | g in position :: fresh(g) && g.Value() == Gradient(0, 0, false)
      {
        assert order[k] !in order[..k];
        var colors;
        colors, position := NewRow(order[k], position);
        assert order[..k + 1] == order[..k] + [order[k]];
        table := table[order[k] := colors];
      }
      assert order[..|order|] == order;
      AllSlotsListed();
    }

    /** The inner loop of the constructor: the three new GradientColors of one slot. */
    static method NewRow(s: Slot, ghost placed: map<GradientColors, (Slot, int)>)
      returns (colors: seq<GradientColors>, ghost position: map<GradientColors, (Slot, int)>)
      ensures |colors| == 3
      ensures forall t | 0 <= t < 3 :: colors[t] in position && position[colors[t]] == (s, t)
      ensures forall g | g in position && g !in placed :: position[g].0 == s && 0 <= position[g].1 < 3 && colors[position[g].1] == g
      ensures forall g | g in placed :: g in position && position[g] == placed[g]
      ensures forall g | g in position && g !in placed :: fresh(g) && g.Value() == Gradient(0, 0, false)
    {
      colors := [];
      position := placed;
      for t := 0 to 3
        invariant |colors| == t
        invariant forall i | 0 <= i < t :: colors[i] in position && position[colors[i]] == (s, i)
        invariant forall g | g in position && g !in placed :: position[g].0 == s && 0 <= position[g].1 < t && colors[position[g].1] == g
        invariant forall g | g in position && g !in placed :: fresh(g) && g.Value() == Gradient(0, 0, false)
        invariant forall g | g in placed :: g in position && position[g] == placed[g]
      {
        var g := new GradientColors();
        position := position[g := (s, t)];
        colors := colors + [g];
      }
    }

    /** The six extractInto calls that end the constructor, in its order. */
    method ExtractAll()
      requires Valid()
      modifies this`derived, Repr
      ensures Valid() && Consistent()
      ensures Samples() == old(Samples()) && listeners == old(listeners) && callbacks == old(callbacks)
    {
      ExtractIntoSlot(System, systemColors);
      ExtractIntoSlot(Lock, lockColors);
      ExtractIntoSlot(LockTint, lockTintColors);
      ExtractIntoSlot(RecentsTint, recentsTintColors);
      ExtractIntoSlot(StatusbarTint, statusbarTintColors);
      ExtractIntoSlot(PowermenuTint, powermenuTintColors);
    }

    /** `extractInto(colors, c[TYPE_NORMAL], c[TYPE_DARK], c[TYPE_EXTRA_DARK])` for the array `c` of slot `s`. */
    method ExtractIntoSlot(s: Slot, colors: Option<WallpaperColors>)
      requires Valid()
      modifies this`derived, Cell(s, 0), Cell(s, 1), Cell(s, 2)
      ensures Valid()
      ensures derived == old(derived).With(s, Derive(extractionType, colors))
      ensures Samples() == old(Samples()) && listeners == old(listeners) && callbacks == old(callbacks)
    {
      var c := gradientColors[s];
      ExtractInto(colors, c[TYPE_NORMAL], c[TYPE_DARK], c[TYPE_EXTRA_DARK]);
      derived := derived.With(s, Derive(extractionType, colors));
    }

    /** Writes one value into `out` through its setters. */
    static method Fill(out: GradientColors, value: Gradient)
      modifies out
      ensures out.Value() == value
    {
      out.SetMainColor(value.mainColor);
      out.SetSecondaryColor(value.secondaryColor);
      out.SetSupportsDarkText(value.supportsDarkText);
    }

    /** The strategy fills the three output objects from one sample. */
    method ExtractInto(colors: Option<WallpaperColors>, outNormal: GradientColors, outDark: GradientColors, outExtraDark: GradientColors)
      requires outNormal != outDark && outNormal != outExtraDark && outDark != outExtraDark
      modifies outNormal, outDark, outExtraDark
      ensures Variants(outNormal.Value(), outDark.Value(), outExtraDark.Value()) == Derive(extractionType, colors)
    {
      var derived := Derive(extractionType, colors);
      Fill(outNormal, derived.normal);
      Fill(outDark, derived.dark);
      Fill(outExtraDark, derived.extraDark);
    }

    /**
     * getColors(which, type): the type is checked first, then `which`; on success the object
     * of the table that holds variant `type` of that slot.
     */
    method GetColorsOfType(which: bv32, gradientType: int32) returns (r: Result<GradientColors, IllegalArgumentException>)
      requires Valid()
      ensures !(0 <= gradientType < 3) ==> r == Failure(InvalidType(gradientType))
      ensures 0 <= gradientType < 3 && which !in SlotFlags ==> r == Failure(InvalidWhich(which))
      ensures r.Success? <==> 0 <= gradientType < 3 && which in SlotFlags
      ensures r.Success? ==> r.value in Repr && r.value.Value() == VariantAt(derived.At(SlotOf(which).value), gradientType as int)
      ensures r.Success? ==> r.value == gradientColors[SlotOf(which).value][gradientType]
    {
      if gradientType != TYPE_NORMAL && gradientType != TYPE_DARK && gradientType != TYPE_EXTRA_DARK {
        return Failure(InvalidType(gradientType));
      }
      var slot := SlotOf(which);
      if slot.None? {
        return Failure(InvalidWhich(which));
      }
      CellHolds(slot.value, gradientType as int);
      return Success(gradientColors[slot.value][gradientType]);
    }

    /** getColors(which): the DARK variant. */
    method GetColors(which: bv32) returns (r: Result<GradientColors, IllegalArgumentException>)
      requires Valid()
      ensures r.Success? <==> which in SlotFlags
      ensures r.Failure? ==> r.error == InvalidWhich(which)
      ensures r.Success? ==> r.value in Repr && r.value.Value() == derived.At(SlotOf(which).value).dark
      ensures r.Success? ==> r.value == gradientColors[SlotOf(which).value][TYPE_DARK]
    {
      r := GetColorsOfType(which, TYPE_DARK);
    }

    /** getWallpaperColors(which): the cached sample of the slot `which` names. */
    function GetWallpaperColors(which: bv32): (r: Result<Option<WallpaperColors>, IllegalArgumentException>)
      reads this
      ensures r.Success? <==> which in SlotFlags
      ensures r.Success? ==> r.value == Samples().At(SlotOf(which).value)
      ensures r.Failure? ==> r.error == InvalidWhich(which)
    {
      if which == FLAG_LOCK then Success(lockColors)
      else if which == FLAG_SYSTEM then Success(systemColors)
      else if which == FLAG_LOCKTINT then Success(lockTintColors)
      else if which == FLAG_RECENTSTINT then Success(recentsTintColors)
      else if which == FLAG_STATUSBARTINT then Success(statusbarTintColors)
      else if which == FLAG_POWERMENUTINT then Success(powermenuTintColors)
      else Failure(InvalidWhich(which))
    }

    /**
     * onColorsChanged(colors, which): every slot whose test on `which` matches takes the new
     * sample and is derived again; if any matched, the listeners are told.
     */
    method OnColorsChanged(colors: Option<WallpaperColors>, which: bv32)
      requires Valid()
      modifies this, Repr
      ensures Valid()
      ensures Samples() == old(Samples()).Refreshed(which, colors)
      ensures derived == old(derived).Refreshed(which, Derive(extractionType, colors))
      ensures Changed(which) ==> listeners == Pruned(old(listeners))
      ensures Changed(which) ==> callbacks == old(callbacks) + Notifications(old(listeners), which)
      ensures !Changed(which) ==> listeners == old(listeners) && callbacks == old(callbacks)
      ensures old(Consistent()) ==> Consistent()
    {
      var changed := false;
      changed := Block(Lock, FLAG_LOCK, colors, which, changed);
      changed := Block(System, FLAG_SYSTEM, colors, which, changed);
      changed := Block(LockTint, FLAG_LOCKTINT, colors, which, changed);
      changed := Block(RecentsTint, FLAG_RECENTSTINT, colors, which, changed);
      changed := Block(StatusbarTint, FLAG_STATUSBARTINT, colors, which, changed);
      changed := Block(PowermenuTint, FLAG_POWERMENUTINT, colors, which, changed);
      RefreshedInOrder(old(Samples()), which, colors);
      RefreshedInOrder(old(derived), which, Derive(extractionType, colors));
      DeriveAllRefreshed(extractionType, old(Samples()), which, colors);
      ChangedIffSomeSlot(which);
      if changed {
        TriggerColorsChanged(which);
      }
    }

    /**
     * One `if ((which & flag) != 0)` block of onColorsChanged for the slot `s` keyed by `flag`,
     * with `changed` as it stood before the block.
     */
    method Block(s: Slot, flag: bv32, colors: Option<WallpaperColors>, which: bv32, changed: bool) returns (changed': bool)
      requires Valid() && flag == Flag(s)
      modifies this, Repr
      ensures Valid()
      ensures changed' == (changed || which & flag != 0)
      ensures Samples() == if which & flag != 0 then old(Samples()).With(s, colors) else old(Samples())
      ensures derived == if which & flag != 0 then old(derived).With(s, Derive(extractionType, colors)) else old(derived)
      ensures listeners == old(listeners) && callbacks == old(callbacks)
    {
      changed' := changed;
      if which & flag != 0 {
        Refresh(s, colors);
        changed' := true;
      }
    }

    /** One block of onColorsChanged: store the sample of slot `s`, then derive the slot again. */
    method Refresh(s: Slot, colors: Option<WallpaperColors>)
      requires Valid()
      modifies this, Cell(s, 0), Cell(s, 1), Cell(s, 2)
      ensures Valid()
      ensures Samples() == old(Samples()).With(s, colors)
      ensures derived == old(derived).With(s, Derive(extractionType, colors))
      ensures listeners == old(listeners) && callbacks == old(callbacks)
    {
      match s {
        case Lock => lockColors := colors;
        case System => systemColors := colors;
        case LockTint => lockTintColors := colors;
        case RecentsTint => recentsTintColors := colors;
        case StatusbarTint => statusbarTintColors := colors;
        case PowermenuTint => powermenuTintColors := colors;
      }
      ExtractIntoSlot(s, colors);
    }

    /**
     * triggerColorsChanged(which): one pass over a copy of the list; a cleared reference is
     * removed from the list, a live one has its listener told.
     */
    method TriggerColorsChanged(which: bv32)
      requires Valid()
      modifies this`listeners, this`callbacks
      ensures Valid()
      ensures listeners == Pruned(old(listeners))
      ensures callbacks == old(callbacks) + Notifications(old(listeners), which)
    {
      var references := listeners;
      for i := 0 to |references|
        invariant listeners == Pruned(references[..i]) + references[i..]
        invariant callbacks == old(callbacks) + Notifications(references[..i], which)
      {
        PassOne(references, i, which, old(callbacks));
      }
      assert references[..|references|] == references;
      PrunedDistinct(references);
    }

    /** The body of triggerColorsChanged's loop, for the reference at index `i` of the copy. */
    method PassOne(references: seq<WeakReference>, i: nat, which: bv32, ghost before: seq<Callback>)
      requires i < |references| && Distinct(references)
      requires listeners == Pruned(references[..i]) + references[i..]
      requires callbacks == before + Notifications(references[..i], which)
      modifies this`listeners, this`callbacks
      ensures listeners == Pruned(references[..i + 1]) + references[i + 1..]
      ensures callbacks == before + Notifications(references[..i + 1], which)
    {
      var weakReference := references[i];
      PassStep(references, i, listeners, which);
      var listener := weakReference.Get();
      if listener == null {
        listeners := RemoveFirst(listeners, weakReference);
      } else {
        callbacks := callbacks + [Callback(listener, which)];
      }
    }

    /** addOnColorsChangedListener: a new weak reference to `listener` goes at the end. */
    method AddOnColorsChangedListener(listener: Listener)
      requires Valid()
      modifies this`listeners
      ensures Valid()
      ensures |listeners| == |old(listeners)| + 1 && listeners[..|old(listeners)|] == old(listeners)
      ensures fresh(listeners[|old(listeners)|]) && listeners[|old(listeners)|].referent == listener
    {
      var reference := new WeakReference(listener);
      listeners := listeners + [reference];
    }

    /**
     * removeOnColorsChangedListener: the first reference whose referent is `listener` leaves
     * the list; the list is unchanged when there is none.
     */
    method RemoveOnColorsChangedListener(listener: Listener)
      requires Valid()
      modifies this`listeners
      ensures Valid()
      ensures listeners == RemoveAt(old(listeners), IndexOfReferent(old(listeners), listener))
    {
      var references := listeners;
      var i := 0;
      while i < |references|
        invariant 0 <= i <= |references|
        invariant listeners == references
        invariant forall j | 0 <= j < i :: references[j].referent != listener
      {
        var weakReference := references[i];
        if weakReference.Get() == listener {
          assert weakReference !in references[..i];
          assert references == references[..i] + [weakReference] + references[i + 1..];
          RemoveFirstSkips(references[..i], weakReference, references[i + 1..]);
          RemoveAtDistinct(references, i);
          listeners := RemoveFirst(listeners, weakReference);
          assert IndexOfReferent(references, listener) == i;
          break;
        }
        i := i + 1;
      }
    }
  }
}
