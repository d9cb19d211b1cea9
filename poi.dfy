/** POI categories with their statistics, subcategories and icons, the
    icon configuration line, and the rows of the POI group (magellan/POI.py). */
module POI {
  import opened Wrappers
  import opened PyStr
  import DBUtil
  import SearchGroup

  /** The icon names a category may be given, the empty name included,
      in the order of magellan/POI.py, twelve to a part. */
  const POIIcons: seq<string> := Icons1 + Icons2 + Icons3 + Icons4 + Icons5 + Icons6 + Icons7 + Icons8 + Icons9

  const Icons1: seq<string> :=
    ["AERIAL", "AIRPORTS", "AMUSEMENT", "AMUSEMENT_PARK", "ARCH", "AREA", "ARROYO", "ATM",
     "AUTO_CLUB", "AUTO_REPAIR", "BANK", "BAR"]
  const Icons2: seq<string> :=
    ["BASIN", "BEACH", "BENCH", "BEND", "BOATING", "BOX", "BRIDGE", "BUS_STATION", "CAMPS", "CAPE",
     "CASINO", "CITY_CENTER2"]
  const Icons3: seq<string> :=
    ["CLIFF", "COMMUNITY_CENTER", "CRATER", "CROSS", "DEFAULT", "EXIT", "FALLS", "FERRY_TERM",
     "FIRST_AID", "FISHING", "FIXED_NAV_AID", "FLAT"]
  const Icons4: seq<string> :=
    ["FLOAT_BUOY", "FOREST", "FUEL", "GAP", "GARDENS", "GAS_STATION", "GEYSER", "GLACIER",
     "GOLF_COURSES", "GUT", "HARBOR", "HOSPITAL"]
  const Icons5: seq<string> :=
    ["HOTEL", "HOUSE", "HUNT_FISH", "ISTHMUS", "LARGE_CITIES", "LAVA", "LEVEE", "LIGHT_HOUSE",
     "LOCALE", "MAJOR_CITIES", "MARINA", "MEDIUM_CITIES"]
  const Icons6: seq<string> :=
    ["MINE", "MUSEUM", "OBSTRUCTION", "OILFIELD", "PARKS", "PILLAR", "PLUS", "RAILWAY_STATION",
     "RANGE", "RAPIDS", "RESERVE", "RESORT"]
  const Icons7: seq<string> :=
    ["RESTAURANT", "RESTUARANTS", "RIDGE", "ROCKS", "RV_SERVICES", "SCHOOL", "SCUBA", "SHOOTING",
     "SHOPPING_CENTER", "SIGHT_SEEING", "SLOPE", "SMALL_CITIES"]
  const Icons8: seq<string> :=
    ["SOUNDINGS", "SPORT_ARENA", "SPORTS_ARENA", "SPRING", "SUMMIT", "SWAMP", "TOURIST",
     "TOURIST_OFFICE", "TOWER", "TRAIN_STATION", "TRUCK_SERVICES", "TUNNEL"]
  const Icons9: seq<string> :=
    ["UNIVERSITY", "VALLEY", "WELL", "WINERIES", "WINERY", "WOODS", "WRECK", "ZOOS", "RENTACAR",
     "BORDER_CROSSING", "BUSINESS_FACILITY", ""]

  lemma Icons1Plain()
    ensures forall icon :: icon in Icons1 ==> ' ' !in icon
  {
  }

  lemma Icons2Plain()
    ensures forall icon :: icon in Icons2 ==> ' ' !in icon
  {
  }

  lemma Icons3Plain()
    ensures forall icon :: icon in Icons3 ==> ' ' !in icon
  {
  }

  lemma Icons4Plain()
    ensures forall icon :: icon in Icons4 ==> ' ' !in icon
  {
  }

  lemma Icons5Plain()
    ensures forall icon :: icon in Icons5 ==> ' ' !in icon
  {
  }

  lemma Icons6Plain()
    ensures forall icon :: icon in Icons6 ==> ' ' !in icon
  {
  }

  lemma Icons7Plain()
    ensures forall icon :: icon in Icons7 ==> ' ' !in icon
  {
  }

  lemma Icons8Plain()
    ensures forall icon :: icon in Icons8 ==> ' ' !in icon
  {
  }

  lemma Icons9Plain()
    ensures forall icon :: icon in Icons9 ==> ' ' !in icon
  {
  }

  /** `x in xs`, one item at a time. */
  predicate InList(x: string, xs: seq<string>)
    decreases |xs|
  {
    |xs| > 0 && (xs[0] == x || InList(x, xs[1..]))
  }

  lemma {:induction false} InListIn(x: string, xs: seq<string>)
    ensures InList(x, xs) <==> x in xs
    decreases |xs|
  {
    if |xs| > 0 {
      InListIn(x, xs[1..]);
      assert xs == [xs[0]] + xs[1..];
    }
  }

  /** `icon in POIIcons`. */
  predicate IsIcon(icon: string)
  {
    InList(icon, POIIcons)
  }

  /** No icon name holds a space. */
  lemma IconsPlain()
    ensures forall icon :: IsIcon(icon) ==> ' ' !in icon
  {
    forall icon | IsIcon(icon)
      ensures icon in POIIcons
    {
      InListIn(icon, POIIcons);
    }
    Icons1Plain();
    Icons2Plain();
    Icons3Plain();
    Icons4Plain();
    Icons5Plain();
    Icons6Plain();
    Icons7Plain();
    Icons8Plain();
    Icons9Plain();
  }

  /** The position a Python index names in a list of n items (negative
      indexes count from the end), None when it is outside the list. */
  function Position(n: nat, i: int): (r: Option<nat>)
    ensures r.Some? <==> -(n as int) <= i < n
    ensures r.Some? ==> r.value < n && (if i >= 0 then r.value == i else r.value == n + i)
  {
    if 0 <= i < n then Some(i) else if -(n as int) <= i < 0 then Some(n + i) else None
  }

  /** `xs[i]`: IndexError outside the list. */
  function PyAt<T>(xs: seq<T>, i: int): (r: Result<T>)
    ensures r.Ok? <==> -|xs| <= i < |xs|
    ensures r.Fail? ==> r.failure == IndexError
    ensures 0 <= i < |xs| ==> r == Ok(xs[i])
  {
    var k := Position(|xs|, i);
    if k.Some? then Ok(xs[k.value]) else Fail(IndexError)
  }

  // ---------------------------------------------------------------------
  // Category statistics
  // ---------------------------------------------------------------------

  /** The statistics of a category: the slots of its first and last POI,
      how many it has and, per sort hash of the name, the slot of the
      first POI whose name has that hash (0 while there is none). */
  datatype Stats = Stats(firstslot: int, lastslot: int, poicount: int, firstCharSlots: seq<int>)

  /** `clearStatistics`: all zero, 39 hash entries. */
  function Cleared(): (s: Stats)
    ensures s.firstslot == 0 && s.lastslot == 0 && s.poicount == 0
    ensures |s.firstCharSlots| == 39 && forall h :: 0 <= h < 39 ==> s.firstCharSlots[h] == 0
  {
    Stats(0, 0, 0, seq(39, _ => 0))
  }

  /** `sortHashFunc` of a name: IndexError for the empty name. */
  function NameHash(name: string): (r: Result<nat>)
    ensures r.Ok? <==> |name| > 0
    ensures r.Ok? ==> r.value <= 37 && r.value == DBUtil.CharHash(DBUtil.Upper(name[0]))
    ensures r.Fail? ==> r.failure == IndexError
  {
    var h := DBUtil.SortHash(Some(name));
    if h.Fail? then Fail(h.failure)
    else if h.value.None? then assert false; Fail(TypeError)
    else Ok(h.value.value)
  }

  function Max(a: int, b: int): int
  {
    if a >= b then a else b
  }

  /** `updateFromPOI`: the first slot is set while it is 0, the last slot
      becomes the larger one, the hash entry of the name is set while it is
      0 and the count goes up by one. The slots are updated before the hash
      is taken, so an empty name (or a hash past the entries) raises
      IndexError with them updated and the count unchanged. */
  function Update(s: Stats, slot: int, name: string): (r: (Stats, Option<Failure>))
    ensures r.1.None? <==> NameHash(name).Ok? && NameHash(name).value < |s.firstCharSlots|
    ensures r.1.Some? ==> r.1 == Some(IndexError)
    ensures r.0.poicount == s.poicount + (if r.1.None? then 1 else 0)
    ensures |r.0.firstCharSlots| == |s.firstCharSlots|
  {
    var first := if s.firstslot == 0 then slot else s.firstslot;
    var last := Max(s.lastslot, slot);
    var h := NameHash(name);
    if h.Fail? || h.value >= |s.firstCharSlots| then (Stats(first, last, s.poicount, s.firstCharSlots), Some(IndexError))
    else
      var fcs := if s.firstCharSlots[h.value] == 0 then s.firstCharSlots[h.value := slot] else s.firstCharSlots;
      (Stats(first, last, s.poicount + 1, fcs), None)
  }

  /** The statistics after `clearStatistics` and one `updateFromPOI` per
      (slot, name), in order, stopping at the first exception. */
  function Replay(pois: seq<(int, string)>): (r: (Stats, Option<Failure>))
  {
    if |pois| == 0 then (Cleared(), None)
    else
      var prev := Replay(pois[..|pois| - 1]);
      if prev.1.Some? then prev else Update(prev.0, pois[|pois| - 1].0, pois[|pois| - 1].1)
  }

  /** The POIs as `close` hands them to a category: slots from 1 up, each
      after the one before, and names that are not empty. */
  predicate Slotted(pois: seq<(int, string)>)
  {
    && (forall i :: 0 <= i < |pois| ==> pois[i].0 >= 1 && |pois[i].1| > 0)
    && (forall i, j :: 0 <= i < j < |pois| ==> pois[i].0 < pois[j].0)
  }

  /** The slot of the first POI whose name has hash h, 0 when none has. */
  function FirstWith(pois: seq<(int, string)>, h: nat): int
  {
    if |pois| == 0 then 0
    else if |pois[0].1| > 0 && NameHash(pois[0].1).value == h then pois[0].0
    else FirstWith(pois[1..], h)
  }

  lemma {:induction false} FirstWithSnoc(pois: seq<(int, string)>, p: (int, string), h: nat)
    requires forall i :: 0 <= i < |pois| ==> pois[i].0 >= 1
    ensures FirstWith(pois + [p], h) ==
      if FirstWith(pois, h) != 0 then FirstWith(pois, h)
      else if |p.1| > 0 && NameHash(p.1).value == h then p.0 else 0
  {
    if |pois| > 0 {
      assert (pois + [p])[1..] == pois[1..] + [p];
      FirstWithSnoc(pois[1..], p, h);
    } else {
      assert [p][1..] == [];
    }
  }

  /** Replaying POIs that all have names raises nothing and keeps the 39
      hash entries. */
  lemma {:induction false} ReplayClean(pois: seq<(int, string)>)
    requires forall i :: 0 <= i < |pois| ==> |pois[i].1| > 0
    ensures Replay(pois).1.None? && |Replay(pois).0.firstCharSlots| == 39
  {
    if |pois| > 0 {
      ReplayClean(pois[..|pois| - 1]);
    }
  }

  /** Replaying the POIs of a category from cleared statistics: nothing
      raises, the count is the number of POIs, the first and last slots are
      those of the first and last POI, and each hash entry holds the slot of
      the first POI whose name has that hash. */
  lemma {:induction false} ReplaySummary(pois: seq<(int, string)>)
    requires Slotted(pois)
    ensures var (s, e) := Replay(pois);
      && e.None? && s.poicount == |pois| && |s.firstCharSlots| == 39
      && (|pois| == 0 ==> s == Cleared())
      && (|pois| > 0 ==> s.firstslot == pois[0].0 && s.lastslot == pois[|pois| - 1].0)
      && forall h :: 0 <= h < 39 ==> s.firstCharSlots[h] == FirstWith(pois, h)
  {
    if |pois| > 0 {
      var prev := pois[..|pois| - 1];
      var p := pois[|pois| - 1];
      assert Slotted(prev);
      ReplaySummary(prev);
      assert pois == prev + [p];
      var (s, e) := Replay(prev);
      forall h | 0 <= h < 39
        ensures Replay(pois).0.firstCharSlots[h] == FirstWith(pois, h)
      {
        FirstWithSnoc(prev, p, h);
      }
    }
  }

  /** Where `addSubCategory` puts a subcategory and the id it gets: an
      explicit id other than one past the last goes to position id-1 (as
      Python indexes, so 0 is the last position and one outside the list
      raises IndexError); otherwise it is appended with id one past the
      last. */
  function Placed<T>(subs: seq<Option<T>>, subcat: T, id: Option<int>): (r: Result<(seq<Option<T>>, int)>)
    ensures r.Ok? ==> PyAt(r.value.0, r.value.1 - 1) == Ok(Some(subcat))
    ensures r.Ok? ==> |subs| <= |r.value.0| <= |subs| + 1
    ensures r.Ok? ==> forall j :: 0 <= j < |subs| && r.value.0[j] != subs[j] ==> r.value.0[j] == Some(subcat)
    ensures id.None? ==> r == Ok((subs + [Some(subcat)], |subs| + 1))
    ensures r.Fail? <==> id.Some? && id.value != |subs| + 1 && !(-|subs| <= id.value - 1 < |subs|)
    ensures r.Fail? ==> r.failure == IndexError
  {
    if id.Some? && id.value != |subs| + 1 then
      var k := Position(|subs|, id.value - 1);
      if k.Some? then Ok((subs[k.value := Some(subcat)], id.value)) else Fail(IndexError)
    else Ok((subs + [Some(subcat)], |subs| + 1))
  }

  /** A POI category (or subcategory): its name, id, subcategories and
      statistics. Subcategory positions read from a database start out as
      None. */
  class POICategory {
    var name: string
    var id: Option<int>
    var subcategories: seq<Option<POICategory>>
    var subcategorydict: map<string, POICategory>
    var firstslot: int
    var lastslot: int
    var poicount: int
    var firstCharSlots: seq<int>

    function Statistics(): Stats
      reads this
    {
      Stats(firstslot, lastslot, poicount, firstCharSlots)
    }

    constructor (name: string)
      ensures this.name == name && id.None? && subcategories == [] && subcategorydict == map[]
      ensures Statistics() == Cleared()
    {
      this.name := name;
      id := None;
      subcategories := [];
      subcategorydict := map[];
      firstCharSlots := seq(39, _ => 0);
      firstslot := 0;
      lastslot := 0;
      poicount := 0;
    }

    /** `clearStatistics`. */
    method ClearStatistics()
      modifies this
      ensures Statistics() == Cleared()
      ensures name == old(name) && id == old(id)
      ensures subcategories == old(subcategories) && subcategorydict == old(subcategorydict)
    {
      firstslot := 0;
      lastslot := 0;
      poicount := 0;
      firstCharSlots := seq(39, _ => 0);
    }

    /** `updateFromPOI`. */
    method UpdateFromPOI(slot: int, poiname: string) returns (err: Option<Failure>)
      modifies this
      ensures (Statistics(), err) == Update(old(Statistics()), slot, poiname)
      ensures name == old(name) && id == old(id)
      ensures subcategories == old(subcategories) && subcategorydict == old(subcategorydict)
    {
      if firstslot == 0 {
        firstslot := slot;
      }
      lastslot := Max(lastslot, slot);
      var h := NameHash(poiname);
      if h.Fail? || h.value >= |firstCharSlots| {
        return Some(IndexError);
      }
      if firstCharSlots[h.value] == 0 {
        firstCharSlots := firstCharSlots[h.value := slot];
      }
      poicount := poicount + 1;
      return None;
    }

    /** `getSubCategory`: position id-1, as Python indexes. */
    function SubCategory(id: int): Result<Option<POICategory>>
      reads this
    {
      PyAt(subcategories, id - 1)
    }

    /** `addSubCategory`: the subcategory goes where `Placed` says and gets
        its id, and is filed under its name; IndexError leaves all as it
        was. */
    method AddSubCategory(subcat: POICategory, id: Option<int>) returns (err: Option<Failure>)
      modifies this, subcat
      ensures var spec := Placed(old(subcategories), subcat, id);
        && (spec.Fail? ==>
              err == Some(spec.failure) && subcategories == old(subcategories)
              && subcat.id == old(subcat.id) && subcategorydict == old(subcategorydict))
        && (spec.Ok? ==>
              err.None? && subcategories == spec.value.0 && subcat.id == Some(spec.value.1)
              && subcategorydict == old(subcategorydict)[subcat.name := subcat])
      ensures err.None? ==> subcat.id.Some? && SubCategory(subcat.id.value) == Ok(Some(subcat))
      ensures name == old(name) && subcat.name == old(subcat.name)
    {
      if id.Some? && id.value != |subcategories| + 1 {
        var k := Position(|subcategories|, id.value - 1);
        if k.None? {
          return Some(IndexError);
        }
        subcategories := subcategories[k.value := Some(subcat)];
        subcat.id := id;
      } else {
        subcat.id := Some(|subcategories| + 1);
        subcategories := subcategories + [Some(subcat)];
      }
      subcategorydict := subcategorydict[subcat.name := subcat];
      return None;
    }
  }

  /** The category manager: the categories in id order (id = position +
      1), the categories by name and the icon of each category id. */
  class POICategoryManager {
    var categories: seq<POICategory>
    var categorydict: map<string, POICategory>
    var icons: map<int, string>

    constructor ()
      ensures categories == [] && categorydict == map[] && icons == map[]
    {
      categories := [];
      categorydict := map[];
      icons := map[];
    }

    /** `getCategory`: position id-1, as Python indexes. */
    function Category(id: int): Result<POICategory>
      reads this
    {
      PyAt(categories, id - 1)
    }

    /** `setIcon`: an icon outside `POIIcons` raises and changes nothing. */
    method SetIcon(catid: int, icon: string) returns (err: Option<Failure>)
      modifies this
      ensures err.None? <==> IsIcon(icon)
      ensures err.Some? ==> err == Some(RuntimeError) && icons == old(icons)
      ensures err.None? ==> icons == old(icons)[catid := icon]
      ensures categories == old(categories) && categorydict == old(categorydict)
    {
      if !IsIcon(icon) {
        return Some(RuntimeError);
      }
      icons := icons[catid := icon];
      return None;
    }

    /** `addCategory`: the category gets the next id, is appended and
        filed under its name, and is then given the icon. A bad icon
        raises after the category was added. */
    method AddCategory(category: POICategory, icon: string) returns (err: Option<Failure>)
      modifies this, category
      ensures category.id == Some(|old(categories)| + 1)
      ensures categories == old(categories) + [category]
      ensures Category(|old(categories)| + 1) == Ok(category)
      ensures forall id :: 1 <= id <= |old(categories)| ==> Category(id) == old(Category(id))
      ensures categorydict == old(categorydict)[category.name := category]
      ensures err.None? <==> IsIcon(icon)
      ensures err.Some? ==> err == Some(RuntimeError) && icons == old(icons)
      ensures err.None? ==> icons == old(icons)[|old(categories)| + 1 := icon]
      ensures category.name == old(category.name) && category.subcategories == old(category.subcategories)
      ensures category.Statistics() == old(category.Statistics())
    {
      category.id := Some(|categories| + 1);
      categories := categories + [category];
      categorydict := categorydict[category.name := category];
      err := SetIcon(|categories|, icon);
    }

    /** `setupfromcfg` of the POI layer configuration: the POI_CAT2ICON
        option read into the icons as `ReadIcons` says. */
    method SetupFromCfg(value: Option<string>) returns (err: Option<Failure>)
      modifies this
      ensures (icons, err) == ReadIcons(old(icons), value)
      ensures categories == old(categories) && categorydict == old(categorydict)
    {
      if value.None? {
        return Some(NoOptionError);
      }
      var toks := Split(value.value, ' ');
      var n := ParseInt(toks[0]);
      if n.Fail? {
        return Some(n.failure);
      }
      var rest := toks[1..];
      if n.value != |rest| / 2 {
        return Some(RuntimeError);
      }
      var i := 0;
      while i < n.value
        invariant 0 <= i <= n.value
        invariant ReadPairs(old(icons), rest, n.value) == ReadPairs(icons, rest[2 * i..], n.value - i)
        invariant categories == old(categories) && categorydict == old(categorydict)
      {
        var id := ParseInt(rest[2 * i]);
        if id.Fail? {
          return Some(id.failure);
        }
        err := SetIcon(id.value, rest[2 * i + 1]);
        if err.Some? {
          return;
        }
        assert rest[2 * i..][2..] == rest[2 * (i + 1)..];
        i := i + 1;
      }
      return None;
    }
  }

  // ---------------------------------------------------------------------
  // The POI_CAT2ICON option
  // ---------------------------------------------------------------------

  /** The icons after `setIcon` of n (id, icon) token pairs, stopping at
      the first id that is not an integer or icon that is not known. */
  function ReadPairs(icons: map<int, string>, toks: seq<string>, n: int): (r: (map<int, string>, Option<Failure>))
    requires |toks| >= 2 * n
    decreases n
  {
    if n <= 0 then (icons, None)
    else
      var id := ParseInt(toks[0]);
      if id.Fail? then (icons, Some(id.failure))
      else if !IsIcon(toks[1]) then (icons, Some(RuntimeError))
      else ReadPairs(icons[id.value := toks[1]], toks[2..], n - 1)
  }

  /** `setupfromcfg`: the option is the count and then id-icon pairs,
      separated by single spaces; a count that is not half the tokens
      after it raises. A missing option raises NoOptionError. */
  function ReadIcons(icons: map<int, string>, value: Option<string>): (r: (map<int, string>, Option<Failure>))
    ensures value.None? ==> r == (icons, Some(NoOptionError))
  {
    if value.None? then (icons, Some(NoOptionError))
    else
      var toks := Split(value.value, ' ');
      var n := ParseInt(toks[0]);
      if n.Fail? then (icons, Some(n.failure))
      else if n.value != |toks[1..]| / 2 then (icons, Some(RuntimeError))
      else ReadPairs(icons, toks[1..], n.value)
  }

  function PairTokens(items: seq<(int, string)>): (r: seq<string>)
    ensures |r| == 2 * |items|
  {
    if |items| == 0 then [] else [IntStr(items[0].0), items[0].1] + PairTokens(items[1..])
  }

  /** `writecfg`: the number of icons, then each category id and its icon,
      in the order the icon dictionary lists them. */
  function IconConfig(items: seq<(int, string)>): (r: string)
    ensures |items| == 0 ==> r == IntStr(0)
    ensures |items| > 0 ==> var n := IntStr(|items|);
      |r| > |n| && r[..|n|] == n && r[|n|] == ' '
  {
    var toks := [IntStr(|items|)] + PairTokens(items);
    assert toks[1..] == PairTokens(items);
    Join(toks, ' ')
  }

  /** The icons after setting each listed one in turn. */
  function Updated(icons: map<int, string>, items: seq<(int, string)>): map<int, string>
    decreases |items|
  {
    if |items| == 0 then icons else Updated(icons[items[0].0 := items[0].1], items[1..])
  }

  predicate KnownIcons(items: seq<(int, string)>)
  {
    forall i :: 0 <= i < |items| ==> IsIcon(items[i].1)
  }

  lemma {:induction false} PairTokensFree(items: seq<(int, string)>)
    requires KnownIcons(items)
    ensures FreeOf(PairTokens(items), ' ')
    ensures forall i :: 0 <= i < |items| ==> PairTokens(items)[2 * i] == IntStr(items[i].0) && PairTokens(items)[2 * i + 1] == items[i].1
  {
    IconsPlain();
    if |items| > 0 {
      PairTokensFree(items[1..]);
      var t := PairTokens(items);
      assert t[2..] == PairTokens(items[1..]);
      forall i | 1 <= i < |items|
        ensures t[2 * i] == IntStr(items[i].0) && t[2 * i + 1] == items[i].1
      {
        assert items[1..][i - 1] == items[i];
        assert t[2 * i] == t[2..][2 * (i - 1)];
      }
    }
  }

  lemma {:induction false} ReadPairsBack(icons: map<int, string>, items: seq<(int, string)>)
    requires KnownIcons(items)
    ensures ReadPairs(icons, PairTokens(items), |items|) == (Updated(icons, items), None)
    decreases |items|
  {
    if |items| > 0 {
      ParseIntStr(items[0].0);
      assert KnownIcons(items[1..]) by {
        forall i | 0 <= i < |items| - 1
          ensures IsIcon(items[1..][i].1)
        {
          assert items[1..][i] == items[i + 1];
        }
      }
      ReadPairsBack(icons[items[0].0 := items[0].1], items[1..]);
      var toks := PairTokens(items);
      assert toks[0] == IntStr(items[0].0) && toks[1] == items[0].1 && toks[2..] == PairTokens(items[1..]);
    }
  }

  /** Reading back what `writecfg` wrote sets the same icons, in the same
      order. */
  lemma IconsRoundTrip(icons: map<int, string>, items: seq<(int, string)>)
    requires KnownIcons(items)
    ensures ReadIcons(icons, Some(IconConfig(items))) == (Updated(icons, items), None)
  {
    var toks := [IntStr(|items|)] + PairTokens(items);
    PairTokensFree(items);
    assert FreeOf(toks, ' ') by {
      forall i | 0 <= i < |toks|
        ensures ' ' !in toks[i]
      {
        if i > 0 {
          assert toks[i] == PairTokens(items)[i - 1];
        }
      }
    }
    SplitJoin(toks, ' ');
    ParseIntStr(|items|);
    assert toks[1..] == PairTokens(items);
    ReadPairsBack(icons, items);
  }

  /** The items of a dictionary: each key once, and exactly its entries. */
  predicate ItemsOf(m: map<int, string>, items: seq<(int, string)>)
  {
    && (forall i, j :: 0 <= i < j < |items| ==> items[i].0 != items[j].0)
    && (forall i :: 0 <= i < |items| ==> items[i].0 in m && m[items[i].0] == items[i].1)
    && (forall k :: k in m ==> exists i :: 0 <= i < |items| && items[i].0 == k)
  }

  lemma {:induction false} UpdatedHas(icons: map<int, string>, items: seq<(int, string)>)
    requires forall i, j :: 0 <= i < j < |items| ==> items[i].0 != items[j].0
    ensures forall i :: 0 <= i < |items| ==> items[i].0 in Updated(icons, items) && Updated(icons, items)[items[i].0] == items[i].1
    ensures forall k :: k in Updated(icons, items) <==> k in icons || exists i :: 0 <= i < |items| && items[i].0 == k
    ensures forall k :: k in icons && (forall i :: 0 <= i < |items| ==> items[i].0 != k) ==> Updated(icons, items)[k] == icons[k]
    decreases |items|
  {
    if |items| > 0 {
      UpdatedHas(icons[items[0].0 := items[0].1], items[1..]);
      assert forall i :: 0 <= i < |items| - 1 ==> items[1..][i].0 != items[0].0;
      forall i | 1 <= i < |items|
        ensures items[1..][i - 1] == items[i]
      {
      }
      forall k | k in Updated(icons, items)
        ensures k in icons || exists i :: 0 <= i < |items| && items[i].0 == k
      {
        if k !in icons && k != items[0].0 {
          var i :| 0 <= i < |items| - 1 && items[1..][i].0 == k;
          assert items[i + 1].0 == k;
        }
      }
    }
  }

  /** `writecfg` then `setupfromcfg` into a manager without icons gives
      back the same icons, whatever order the dictionary lists them in. */
  lemma IconsRestored(m: map<int, string>, items: seq<(int, string)>)
    requires ItemsOf(m, items) && KnownIcons(items)
    ensures ReadIcons(map[], Some(IconConfig(items))) == (m, None)
  {
    IconsRoundTrip(map[], items);
    UpdatedHas(map[], items);
    var u := Updated(map[], items);
    forall k | k in m
      ensures k in u && u[k] == m[k]
    {
      var i :| 0 <= i < |items| && items[i].0 == k;
    }
    forall k | k in u
      ensures k in m
    {
      var i :| 0 <= i < |items| && items[i].0 == k;
    }
    assert u == m;
  }

  // ---------------------------------------------------------------------
  // The POI group: writing the rows in `close` and reading them back
  // ---------------------------------------------------------------------

  /** A POI feature: its cell element references (cell, index in cell),
      its auxiliary texts (the name first) and its category and
      subcategory ids. */
  datatype FeaturePOI = FeaturePOI(refs: seq<(int, int)>, aux: seq<string>, categoryid: int, subcategoryid: int)

  /** A row of POIPOINT_: TEXT_SLOT and CELL_NUMBER are 'I' fields,
      NUMBER_IN_CELL an 'H', CATG_ID and SUBCAT_ID 'B's. */
  datatype POIRow = POIRow(textSlot: nat, cellNumber: nat, numberInCell: nat, catgId: nat, subcatId: nat)

  /** The end character of the POI texts. */
  const EndChar: char := '\U{7}'

  /** The text stored for a feature: its aux texts, each followed by a tab. */
  function AuxText(aux: seq<string>): string
  {
    Join(aux, '\t') + ['\t']
  }

  /** Every field of a feature's row fits its column, and the feature has
      a cell element reference. */
  predicate RowFits(textslot: int, f: FeaturePOI)
  {
    && SearchGroup.FitsI(textslot) && SearchGroup.FitsB(f.categoryid) && SearchGroup.FitsB(f.subcategoryid) && |f.refs| > 0
    && SearchGroup.FitsI(f.refs[0].0) && SearchGroup.FitsH(f.refs[0].1 + 1)
  }

  /** The row of one feature: the fields in the order they are set, a
      value outside its field raising struct.error, and IndexError when the
      feature has no cell element reference. Only the first reference is
      stored; NUMBER_IN_CELL counts from 1. */
  function WriteRow(textslot: int, f: FeaturePOI): (r: Result<POIRow>)
    ensures r.Ok? <==> RowFits(textslot, f)
    ensures r.Fail? ==> r.failure == (if SearchGroup.FitsI(textslot) && SearchGroup.FitsB(f.categoryid)
      && SearchGroup.FitsB(f.subcategoryid) && |f.refs| == 0 then IndexError else StructError)
    ensures r.Ok? ==> r.value == POIRow(textslot, f.refs[0].0, f.refs[0].1 + 1, f.categoryid, f.subcategoryid)
  {
    if !SearchGroup.FitsI(textslot) || !SearchGroup.FitsB(f.categoryid) || !SearchGroup.FitsB(f.subcategoryid) then Fail(StructError)
    else if |f.refs| == 0 then Fail(IndexError)
    else if !SearchGroup.FitsI(f.refs[0].0) || !SearchGroup.FitsH(f.refs[0].1 + 1) then Fail(StructError)
    else Ok(POIRow(textslot, f.refs[0].0, f.refs[0].1 + 1, f.categoryid, f.subcategoryid))
  }

  /** `_getFeatureByIndex`: the row's TEXT_SLOT is split into the offset
      (top 8 bits) and the row of the aux table (low 24 bits); the text
      found there is split at tabs and the piece after the last tab is
      dropped. */
  function FeatureAt(rows: seq<POIRow>, auxRows: seq<string>, index: nat): (r: Result<FeaturePOI>)
    ensures index >= |rows| ==> r == Fail(IndexError)
    ensures r.Ok? ==>
      && index < |rows| && r.value.refs == [(rows[index].cellNumber, rows[index].numberInCell - 1)]
      && r.value.categoryid == rows[index].catgId && r.value.subcategoryid == rows[index].subcatId
  {
    if index >= |rows| then Fail(IndexError)
    else
      var rec := rows[index];
      var text := DBUtil.LookupText(auxRows, rec.textSlot % SearchGroup.RowRange, rec.textSlot / SearchGroup.RowRange, Some(EndChar), None);
      if text.Fail? then Fail(text.failure)
      else if text.value.None? then Fail(AttributeError)
      else
        var aux := Split(text.value.value, '\t');
        Ok(FeaturePOI([(rec.cellNumber, rec.numberInCell - 1)], aux[..|aux| - 1], rec.catgId, rec.subcatId))
  }

  lemma {:induction false} JoinEmptyLast(xs: seq<string>, sep: char)
    requires |xs| >= 1
    ensures Join(xs + [[]], sep) == Join(xs, sep) + [sep]
  {
    if |xs| == 1 {
      assert Join(xs + [[]], sep) == xs[0] + [sep] + Join([[]], sep);
    } else {
      assert (xs + [[]])[1..] == xs[1..] + [[]];
      JoinEmptyLast(xs[1..], sep);
    }
  }

  /** Splitting a stored text gives back the aux texts, when there is at
      least one and none holds a tab. */
  lemma AuxTextSplits(aux: seq<string>)
    requires |aux| >= 1 && FreeOf(aux, '\t')
    ensures var pieces := Split(AuxText(aux), '\t'); |pieces| >= 1 && pieces[..|pieces| - 1] == aux
  {
    JoinEmptyLast(aux, '\t');
    assert FreeOf(aux + [[]], '\t') by {
      forall i | 0 <= i < |aux| + 1
        ensures '\t' !in (aux + [[]])[i]
      {
        if i < |aux| {
          assert (aux + [[]])[i] == aux[i];
        }
      }
    }
    SplitJoin(aux + [[]], '\t');
    assert (aux + [[]])[..|aux|] == aux;
  }

  /** A written row reads back as its feature, with only the first cell
      element reference, when the aux table holds the feature's text at
      the row's text slot. */
  lemma RowReadsBack(rows: seq<POIRow>, auxRows: seq<string>, index: nat, textslot: int, f: FeaturePOI)
    requires WriteRow(textslot, f).Ok? && index < |rows| && rows[index] == WriteRow(textslot, f).value
    requires |f.aux| >= 1 && FreeOf(f.aux, '\t')
    requires DBUtil.LookupText(auxRows, textslot % SearchGroup.RowRange, textslot / SearchGroup.RowRange, Some(EndChar), None)
      == Ok(Some(AuxText(f.aux)))
    ensures FeatureAt(rows, auxRows, index) == Ok(f.(refs := f.refs[..1]))
  {
    AuxTextSplits(f.aux);
    assert f.refs[..1] == [f.refs[0]];
    var aux := Split(AuxText(f.aux), '\t');
    assert FeatureAt(rows, auxRows, index) == Ok(FeaturePOI([f.refs[0]], aux[..|aux| - 1], f.categoryid, f.subcategoryid));
  }

  /** The statistics of a category and of the subcategories at each of its
      positions (None where a position was never filled). */
  datatype CatStats = CatStats(stats: Stats, subs: seq<Option<Stats>>)

  /** The subcategory part of `clearStatistics` for each category: an empty
      position raises AttributeError, leaving the positions after it as
      they were. */
  function ClearSubs(subs: seq<Option<Stats>>): (r: (seq<Option<Stats>>, Option<Failure>))
    ensures |r.0| == |subs|
    ensures r.1.None? <==> forall j :: 0 <= j < |subs| ==> subs[j].Some?
    ensures r.1.Some? ==> r.1 == Some(AttributeError)
    ensures r.1.None? ==> forall j :: 0 <= j < |subs| ==> r.0[j] == Some(Cleared())
  {
    if |subs| == 0 then ([], None)
    else if subs[0].None? then (subs, Some(AttributeError))
    else
      var (rest, e) := ClearSubs(subs[1..]);
      assert forall j :: 1 <= j < |subs| ==> subs[j] == subs[1..][j - 1];
      ([Some(Cleared())] + rest, e)
  }

  /** `clearStatistics` of every category and subcategory, in order,
      stopping at the first empty subcategory position. */
  function ClearCats(cats: seq<CatStats>): (r: (seq<CatStats>, Option<Failure>))
    ensures |r.0| == |cats|
    ensures r.1.None? <==> forall k, j :: 0 <= k < |cats| && 0 <= j < |cats[k].subs| ==> cats[k].subs[j].Some?
    ensures r.1.None? ==> Cleans(r.0) && forall k :: 0 <= k < |cats| ==> |r.0[k].subs| == |cats[k].subs|
  {
    if |cats| == 0 then ([], None)
    else
      var (subs, e) := ClearSubs(cats[0].subs);
      var c := CatStats(Cleared(), subs);
      if e.Some? then ([c] + cats[1..], e)
      else
        var (rest, e2) := ClearCats(cats[1..]);
        assert forall k :: 1 <= k < |cats| ==> cats[k] == cats[1..][k - 1];
        assert forall k :: 1 <= k < |cats| ==> ([c] + rest)[k] == rest[k - 1];
        ([c] + rest, e2)
  }

  /** Every category and subcategory has cleared statistics. */
  predicate Cleans(cats: seq<CatStats>)
  {
    forall k :: 0 <= k < |cats| ==> cats[k].stats == Cleared() && forall j :: 0 <= j < |cats[k].subs| ==> cats[k].subs[j] == Some(Cleared())
  }

  /** One feature of `close`: its category and subcategory are looked up,
      both are updated with the slot and the feature's name, then its row
      is made. */
  function Step(cats: seq<CatStats>, slot: int, textslot: int, f: FeaturePOI): (r: (seq<CatStats>, Result<POIRow>))
    ensures |r.0| == |cats|
  {
    var k := Position(|cats|, f.categoryid - 1);
    if k.None? then (cats, Fail(IndexError))
    else
      var c := cats[k.value];
      var j := Position(|c.subs|, f.subcategoryid - 1);
      if j.None? || |f.aux| == 0 then (cats, Fail(IndexError))
      else
        var (s1, e1) := Update(c.stats, slot, f.aux[0]);
        var cats1 := cats[k.value := c.(stats := s1)];
        if e1.Some? then (cats1, Fail(e1.value))
        else if c.subs[j.value].None? then (cats1, Fail(AttributeError))
        else
          var (t1, e2) := Update(c.subs[j.value].value, slot, f.aux[0]);
          var cats2 := cats[k.value := CatStats(s1, c.subs[j.value := Some(t1)])];
          if e2.Some? then (cats2, Fail(e2.value)) else (cats2, WriteRow(textslot, f))
  }

  /** The statistics, the rows written and the exception that stopped
      `close`, if one did. */
  datatype Closing = Closing(cats: seq<CatStats>, rows: seq<POIRow>, error: Option<Failure>)

  /** The loop of `close` over the features, slots counting from 1, with
      the text slots the aux table returned for them. */
  function Writes(cats: seq<CatStats>, fs: seq<FeaturePOI>, textslots: seq<int>): (r: Closing)
    requires |textslots| == |fs|
    ensures |r.cats| == |cats| && |r.rows| <= |fs|
  {
    if |fs| == 0 then Closing(cats, [], None)
    else
      var prev := Writes(cats, fs[..|fs| - 1], textslots[..|fs| - 1]);
      if prev.error.Some? then prev
      else
        var (st, row) := Step(prev.cats, |fs|, textslots[|fs| - 1], fs[|fs| - 1]);
        if row.Fail? then Closing(st, prev.rows, Some(row.failure)) else Closing(st, prev.rows + [row.value], None)
  }

  /** Once a feature raised, the features after it change nothing. */
  lemma {:induction false} WritesStops(cats: seq<CatStats>, fs: seq<FeaturePOI>, textslots: seq<int>, n: nat)
    requires |textslots| == |fs| && n <= |fs|
    requires Writes(cats, fs[..n], textslots[..n]).error.Some?
    ensures Writes(cats, fs, textslots) == Writes(cats, fs[..n], textslots[..n])
    decreases |fs| - n
  {
    if n < |fs| {
      var m := n + 1;
      assert fs[..m][..n] == fs[..n] && textslots[..m][..n] == textslots[..n];
      WritesStops(cats, fs, textslots, m);
    } else {
      assert fs[..n] == fs && textslots[..n] == textslots;
    }
  }

  /** `close` of the POI group, in the order the features are given:
      clear the statistics, then write each feature. */
  function Close(cats: seq<CatStats>, fs: seq<FeaturePOI>, textslots: seq<int>): Closing
    requires |textslots| == |fs|
  {
    var (cleared, e) := ClearCats(cats);
    if e.Some? then Closing(cleared, [], e) else Writes(cleared, fs, textslots)
  }

  /** Writing one more feature after features that raised nothing. */
  lemma WritesNext(cats: seq<CatStats>, fs: seq<FeaturePOI>, textslots: seq<int>, i: nat)
    requires |textslots| == |fs| && i < |fs|
    requires Writes(cats, fs[..i], textslots[..i]).error.None?
    ensures var prev := Writes(cats, fs[..i], textslots[..i]);
      var (st, row) := Step(prev.cats, i + 1, textslots[i], fs[i]);
      Writes(cats, fs[..i + 1], textslots[..i + 1])
        == if row.Fail? then Closing(st, prev.rows, Some(row.failure)) else Closing(st, prev.rows + [row.value], None)
  {
    assert fs[..i + 1][..i] == fs[..i] && textslots[..i + 1][..i] == textslots[..i];
  }

  /** `close`, feature by feature. */
  method CloseGroup(cats: seq<CatStats>, fs: seq<FeaturePOI>, textslots: seq<int>) returns (r: Closing)
    requires |textslots| == |fs|
    ensures r == Close(cats, fs, textslots)
  {
    var cleared, e := ClearCats(cats).0, ClearCats(cats).1;
    if e.Some? {
      return Closing(cleared, [], e);
    }
    r := Closing(cleared, [], None);
    var i := 0;
    while i < |fs|
      invariant 0 <= i <= |fs|
      invariant r == Writes(cleared, fs[..i], textslots[..i]) && r.error.None?
    {
      WritesNext(cleared, fs, textslots, i);
      var st, row := Step(r.cats, i + 1, textslots[i], fs[i]).0, Step(r.cats, i + 1, textslots[i], fs[i]).1;
      if row.Fail? {
        r := Closing(st, r.rows, Some(row.failure));
        WritesStops(cleared, fs, textslots, i + 1);
        return;
      }
      r := Closing(st, r.rows + [row.value], None);
      i := i + 1;
    }
    assert fs[..|fs|] == fs && textslots[..|fs|] == textslots;
  }

  /** Whether a feature belongs to category c (s None) or to its
      subcategory s. */
  predicate Member(f: FeaturePOI, c: int, s: Option<int>)
  {
    f.categoryid == c && (s.None? || f.subcategoryid == s.value)
  }

  /** The name a feature gives its category: its first aux text. */
  function Name(f: FeaturePOI): string
  {
    if |f.aux| > 0 then f.aux[0] else []
  }

  /** Every feature has a non-empty name. */
  predicate Named(fs: seq<FeaturePOI>)
  {
    forall i :: 0 <= i < |fs| ==> |Name(fs[i])| > 0
  }

  /** The (slot, name) of each feature of a category or subcategory, as
      `close` hands them to its `updateFromPOI`; slots count from 1. */
  function Pois(fs: seq<FeaturePOI>, c: int, s: Option<int>): (r: seq<(int, string)>)
    ensures |r| <= |fs|
  {
    if |fs| == 0 then []
    else Pois(fs[..|fs| - 1], c, s) + (if Member(fs[|fs| - 1], c, s) then [(|fs|, Name(fs[|fs| - 1]))] else [])
  }

  lemma {:induction false} PoisSlotted(fs: seq<FeaturePOI>, c: int, s: Option<int>)
    requires Named(fs)
    ensures Slotted(Pois(fs, c, s))
    ensures forall i :: 0 <= i < |Pois(fs, c, s)| ==>
      var q := Pois(fs, c, s)[i].0; 1 <= q <= |fs| && Member(fs[q - 1], c, s)
  {
    if |fs| > 0 {
      var pre := fs[..|fs| - 1];
      assert Named(pre);
      PoisSlotted(pre, c, s);
      forall i | 0 <= i < |Pois(pre, c, s)|
        ensures fs[Pois(pre, c, s)[i].0 - 1] == pre[Pois(pre, c, s)[i].0 - 1]
      {
      }
    }
  }

  /** One more feature adds one `updateFromPOI` to the statistics of its
      category and subcategory, and nothing to the others. */
  lemma ReplaySnoc(fs: seq<FeaturePOI>, f: FeaturePOI, c: int, s: Option<int>)
    requires Named(fs)
    ensures Replay(Pois(fs + [f], c, s)) ==
      if Member(f, c, s) then Update(Replay(Pois(fs, c, s)).0, |fs| + 1, Name(f)) else Replay(Pois(fs, c, s))
  {
    var p := Pois(fs, c, s);
    PoisSnoc(fs, f, c, s);
    if Member(f, c, s) {
      PoisNamed(fs, c, s);
      ReplayClean(p);
      ReplayAppend(p, (|fs| + 1, Name(f)));
      assert Pois(fs + [f], c, s) == p + [(|fs| + 1, Name(f))];
      assert Replay(p + [(|fs| + 1, Name(f))]) == Update(Replay(p).0, |fs| + 1, Name(f));
    } else {
      assert Pois(fs + [f], c, s) == p + [];
      assert p + [] == p;
    }
  }

  lemma PoisSnoc(fs: seq<FeaturePOI>, f: FeaturePOI, c: int, s: Option<int>)
    ensures Pois(fs + [f], c, s) == Pois(fs, c, s) + (if Member(f, c, s) then [(|fs| + 1, Name(f))] else [])
  {
    assert (fs + [f])[..|fs|] == fs;
  }

  lemma ReplayAppend(pois: seq<(int, string)>, p: (int, string))
    requires Replay(pois).1.None?
    ensures Replay(pois + [p]) == Update(Replay(pois).0, p.0, p.1)
  {
    assert (pois + [p])[..|pois|] == pois;
  }

  lemma {:induction false} PoisNamed(fs: seq<FeaturePOI>, c: int, s: Option<int>)
    requires Named(fs)
    ensures forall i :: 0 <= i < |Pois(fs, c, s)| ==> |Pois(fs, c, s)[i].1| > 0
  {
    if |fs| > 0 {
      var pre := fs[..|fs| - 1];
      assert Named(pre);
      PoisNamed(pre, c, s);
    }
  }

  /** The statistics of one category and its subcategories are those the
      POIs of each give when replayed. */
  predicate Tallied(cs: CatStats, fs: seq<FeaturePOI>, id: int)
  {
    && cs.stats == Tally(fs, id, None)
    && forall j :: 0 <= j < |cs.subs| ==> cs.subs[j] == Some(Tally(fs, id, Some(j + 1)))
  }

  /** The rows are those of the features, one each, in order. */
  predicate RowsOf(rows: seq<POIRow>, fs: seq<FeaturePOI>, textslots: seq<int>)
    requires |textslots| == |fs|
  {
    |rows| == |fs| && forall i :: 0 <= i < |fs| ==> WriteRow(textslots[i], fs[i]) == Ok(rows[i])
  }

  /** Every category is tallied, category k+1 at position k. */
  predicate AllTallied(cats: seq<CatStats>, fs: seq<FeaturePOI>)
  {
    forall k :: 0 <= k < |cats| ==> Tallied(cats[k], fs, k + 1)
  }

  /** The statistics `updateFromPOI` leaves in a cleared category or
      subcategory when `close` hands it the features that are its own;
      `TallyReplay` shows they are its POIs replayed. */
  function Tally(fs: seq<FeaturePOI>, c: int, s: Option<int>): (r: Stats)
    ensures |r.firstCharSlots| == 39
  {
    if |fs| == 0 then Cleared()
    else
      var p := Tally(fs[..|fs| - 1], c, s);
      if Member(fs[|fs| - 1], c, s) then Update(p, |fs|, Name(fs[|fs| - 1])).0 else p
  }

  lemma TallySnoc(fs: seq<FeaturePOI>, f: FeaturePOI, c: int, s: Option<int>)
    ensures Tally(fs + [f], c, s) == if Member(f, c, s) then Update(Tally(fs, c, s), |fs| + 1, Name(f)).0 else Tally(fs, c, s)
  {
    assert (fs + [f])[..|fs|] == fs;
  }

  /** The statistics `close` builds for a category (s None) or
      subcategory are its POIs replayed from cleared statistics, with no
      exception. */
  lemma {:induction false} TallyReplay(fs: seq<FeaturePOI>, c: int, s: Option<int>)
    requires Named(fs)
    ensures Replay(Pois(fs, c, s)) == (Tally(fs, c, s), None)
  {
    if |fs| > 0 {
      var pre := fs[..|fs| - 1];
      assert Named(pre);
      TallyReplay(pre, c, s);
      ReplaySnoc(pre, fs[|fs| - 1], c, s);
      assert pre + [fs[|fs| - 1]] == fs;
      TallySnoc(pre, fs[|fs| - 1], c, s);
    }
  }

  /** Every feature names a category and a subcategory that exist (ids from
      1) and has a row that can be written. */
  predicate Fits(cats: seq<CatStats>, fs: seq<FeaturePOI>, textslots: seq<int>)
    requires |textslots| == |fs|
  {
    forall i :: 0 <= i < |fs| ==>
      && 1 <= fs[i].categoryid <= |cats|
      && 1 <= fs[i].subcategoryid <= |cats[fs[i].categoryid - 1].subs|
      && RowFits(textslots[i], fs[i])
  }

  /** Replayed statistics accept one more update. */
  lemma TallyAccepts(fs: seq<FeaturePOI>, c: int, s: Option<int>, slot: int, name: string)
    requires |name| > 0
    ensures Update(Tally(fs, c, s), slot, name).1.None?
  {
  }

  /** The step of a feature whose category and subcategory exist and
      accept the update. */
  lemma StepFits(cats: seq<CatStats>, slot: int, textslot: int, f: FeaturePOI)
    requires 1 <= f.categoryid <= |cats| && 1 <= f.subcategoryid <= |cats[f.categoryid - 1].subs|
    requires |Name(f)| > 0
    requires var c := cats[f.categoryid - 1];
      && c.subs[f.subcategoryid - 1].Some?
      && Update(c.stats, slot, Name(f)).1.None? && Update(c.subs[f.subcategoryid - 1].value, slot, Name(f)).1.None?
    ensures var c := cats[f.categoryid - 1]; var j := f.subcategoryid - 1; var r := Step(cats, slot, textslot, f);
      && r.1 == WriteRow(textslot, f) && |r.0| == |cats|
      && r.0[f.categoryid - 1] == CatStats(Update(c.stats, slot, Name(f)).0, c.subs[j := Some(Update(c.subs[j].value, slot, Name(f)).0)])
      && forall k :: 0 <= k < |cats| && k != f.categoryid - 1 ==> r.0[k] == cats[k]
  {
  }

  /** A category the new feature is not in keeps its tally. */
  lemma TallyOther(cs: CatStats, fs: seq<FeaturePOI>, f: FeaturePOI, id: int)
    requires f.categoryid != id && Tallied(cs, fs, id)
    ensures Tallied(cs, fs + [f], id)
  {
    TallySnoc(fs, f, id, None);
    forall j | 0 <= j < |cs.subs|
      ensures cs.subs[j] == Some(Tally(fs + [f], id, Some(j + 1)))
    {
      TallySnoc(fs, f, id, Some(j + 1));
    }
  }

  /** The category of the new feature, updated with it and with its
      subcategory updated too, keeps its tally. */
  lemma TallyUpdated(cs: CatStats, fs: seq<FeaturePOI>, f: FeaturePOI, slot: int)
    requires slot == |fs| + 1 && Tallied(cs, fs, f.categoryid)
    requires 1 <= f.subcategoryid <= |cs.subs|
    ensures var j := f.subcategoryid - 1;
      Tallied(CatStats(Update(cs.stats, slot, Name(f)).0, cs.subs[j := Some(Update(cs.subs[j].value, slot, Name(f)).0)]), fs + [f], f.categoryid)
  {
    var j := f.subcategoryid - 1;
    var subs := cs.subs[j := Some(Update(cs.subs[j].value, slot, Name(f)).0)];
    TallySnoc(fs, f, f.categoryid, None);
    forall j' | 0 <= j' < |subs|
      ensures subs[j'] == Some(Tally(fs + [f], f.categoryid, Some(j' + 1)))
    {
      TallySnoc(fs, f, f.categoryid, Some(j' + 1));
    }
  }

  /** The statistics after one more feature, as `StepFits` gives them,
      keep every category's tally. */
  lemma TallyAfter(cats: seq<CatStats>, st: seq<CatStats>, fs: seq<FeaturePOI>, f: FeaturePOI)
    requires 1 <= f.categoryid <= |cats| && 1 <= f.subcategoryid <= |cats[f.categoryid - 1].subs|
    requires forall k :: 0 <= k < |cats| ==> Tallied(cats[k], fs, k + 1)
    requires cats[f.categoryid - 1].subs[f.subcategoryid - 1].Some?
    requires var c := cats[f.categoryid - 1]; var j := f.subcategoryid - 1; var slot := |fs| + 1;
      && |st| == |cats|
      && st[f.categoryid - 1] == CatStats(Update(c.stats, slot, Name(f)).0, c.subs[j := Some(Update(c.subs[j].value, slot, Name(f)).0)])
      && forall k :: 0 <= k < |cats| && k != f.categoryid - 1 ==> st[k] == cats[k]
    ensures forall k :: 0 <= k < |cats| ==> Tallied(st[k], fs + [f], k + 1)
  {
    forall k | 0 <= k < |cats|
      ensures Tallied(st[k], fs + [f], k + 1)
    {
      if k == f.categoryid - 1 {
        TallyUpdated(cats[k], fs, f, |fs| + 1);
      } else {
        TallyOther(cats[k], fs, f, k + 1);
      }
    }
  }

  lemma TallyStep(cats: seq<CatStats>, fs: seq<FeaturePOI>, f: FeaturePOI, textslot: int)
    requires |Name(f)| > 0 && 1 <= f.categoryid <= |cats| && 1 <= f.subcategoryid <= |cats[f.categoryid - 1].subs|
    requires AllTallied(cats, fs)
    ensures Step(cats, |fs| + 1, textslot, f).1 == WriteRow(textslot, f)
    ensures var st := Step(cats, |fs| + 1, textslot, f).0; forall k :: 0 <= k < |cats| ==> |st[k].subs| == |cats[k].subs|
    ensures AllTallied(Step(cats, |fs| + 1, textslot, f).0, fs + [f])
  {
    var k := f.categoryid - 1;
    var c := cats[k];
    assert Tallied(c, fs, k + 1);
    assert c.subs[f.subcategoryid - 1] == Some(Tally(fs, k + 1, Some(f.subcategoryid)));
    TallyAccepts(fs, k + 1, None, |fs| + 1, Name(f));
    TallyAccepts(fs, k + 1, Some(f.subcategoryid), |fs| + 1, Name(f));
    StepFits(cats, |fs| + 1, textslot, f);
    TallyAfter(cats, Step(cats, |fs| + 1, textslot, f).0, fs, f);
  }

  /** One more feature, when the ones before raised nothing. */
  lemma WritesSnoc(cats: seq<CatStats>, fs: seq<FeaturePOI>, textslots: seq<int>)
    requires |textslots| == |fs| > 0
    requires Writes(cats, fs[..|fs| - 1], textslots[..|fs| - 1]).error.None?
    ensures var prev := Writes(cats, fs[..|fs| - 1], textslots[..|fs| - 1]);
      var (st, row) := Step(prev.cats, |fs|, textslots[|fs| - 1], fs[|fs| - 1]);
      row.Ok? ==> Writes(cats, fs, textslots) == Closing(st, prev.rows + [row.value], None)
  {
  }

  /** Writing features whose categories, subcategories and rows all fit,
      from cleared statistics: nothing raises, each feature's row is
      written in order, and the statistics of every category and
      subcategory are those its own POIs give, replayed in order. */
  lemma {:induction false} WritesTally(cats: seq<CatStats>, fs: seq<FeaturePOI>, textslots: seq<int>)
    requires |textslots| == |fs| && AllTallied(cats, []) && Named(fs) && Fits(cats, fs, textslots)
    ensures Written(cats, fs, textslots)
  {
    if |fs| > 0 {
      var n := |fs| - 1;
      var pre, ts := fs[..n], textslots[..n];
      assert Named(pre) && Fits(cats, pre, ts);
      WritesTally(cats, pre, ts);
      assert 1 <= fs[n].categoryid <= |cats| && 1 <= fs[n].subcategoryid <= |cats[fs[n].categoryid - 1].subs|;
      assert RowFits(textslots[n], fs[n]) && |Name(fs[n])| > 0;
      WritesTallyStep(cats, fs, textslots);
    } else {
      assert fs == [];
    }
  }

  /** What `WritesTally` states of the writes of some features. */
  predicate Written(cats: seq<CatStats>, fs: seq<FeaturePOI>, textslots: seq<int>)
    requires |textslots| == |fs|
  {
    WrittenAs(Writes(cats, fs, textslots), cats, fs, textslots)
  }

  predicate WrittenAs(r: Closing, cats: seq<CatStats>, fs: seq<FeaturePOI>, textslots: seq<int>)
    requires |textslots| == |fs|
  {
    && r.error.None? && RowsOf(r.rows, fs, textslots)
    && |r.cats| == |cats| && (forall k :: 0 <= k < |cats| ==> |r.cats[k].subs| == |cats[k].subs|)
    && AllTallied(r.cats, fs)
  }

  lemma WritesTallyStep(cats: seq<CatStats>, fs: seq<FeaturePOI>, textslots: seq<int>)
    requires |textslots| == |fs| > 0
    requires var f := fs[|fs| - 1];
      && |Name(f)| > 0 && 1 <= f.categoryid <= |cats| && 1 <= f.subcategoryid <= |cats[f.categoryid - 1].subs|
      && RowFits(textslots[|fs| - 1], f)
    requires Written(cats, fs[..|fs| - 1], textslots[..|fs| - 1])
    ensures Written(cats, fs, textslots)
  {
    WrittenStep(Writes(cats, fs[..|fs| - 1], textslots[..|fs| - 1]), cats, fs, textslots);
    WritesSnoc(cats, fs, textslots);
  }

  /** The value part of `WritesTallyStep`. */
  lemma WrittenStep(prev: Closing, cats: seq<CatStats>, fs: seq<FeaturePOI>, textslots: seq<int>)
    requires |textslots| == |fs| > 0 && WrittenAs(prev, cats, fs[..|fs| - 1], textslots[..|fs| - 1])
    requires var f := fs[|fs| - 1];
      && |Name(f)| > 0 && 1 <= f.categoryid <= |cats| && 1 <= f.subcategoryid <= |cats[f.categoryid - 1].subs|
      && RowFits(textslots[|fs| - 1], f)
    ensures var (st, row) := Step(prev.cats, |fs|, textslots[|fs| - 1], fs[|fs| - 1]);
      row.Ok? && WrittenAs(Closing(st, prev.rows + [row.value], None), cats, fs, textslots)
  {
    var n := |fs| - 1;
    var f, t := fs[n], textslots[n];
    assert |prev.cats[f.categoryid - 1].subs| == |cats[f.categoryid - 1].subs|;
    TallyStep(prev.cats, fs[..n], f, t);
    RowsSnoc(prev.rows, fs[..n], textslots[..n], f, t);
    assert fs[..n] + [f] == fs;
    assert textslots[..n] + [t] == textslots;
  }

  lemma RowsSnoc(rows: seq<POIRow>, fs: seq<FeaturePOI>, textslots: seq<int>, f: FeaturePOI, t: int)
    requires |textslots| == |fs| && RowsOf(rows, fs, textslots) && WriteRow(t, f).Ok?
    ensures RowsOf(rows + [WriteRow(t, f).value], fs + [f], textslots + [t])
  {
    var rs, gs, ts := rows + [WriteRow(t, f).value], fs + [f], textslots + [t];
    forall i | 0 <= i < |gs|
      ensures WriteRow(ts[i], gs[i]) == Ok(rs[i])
    {
      if i < |fs| {
        assert gs[i] == fs[i] && ts[i] == textslots[i] && rs[i] == rows[i];
      }
    }
  }

  /** `close` with every subcategory position filled and every feature
      fitting: the statistics of each category and subcategory are those
      of its own POIs, and every row is written. */
  lemma CloseTally(cats: seq<CatStats>, fs: seq<FeaturePOI>, textslots: seq<int>)
    requires |textslots| == |fs| && Named(fs) && Fits(cats, fs, textslots)
    requires forall k, j :: 0 <= k < |cats| && 0 <= j < |cats[k].subs| ==> cats[k].subs[j].Some?
    ensures var r := Close(cats, fs, textslots);
      && r.error.None? && RowsOf(r.rows, fs, textslots) && AllTallied(r.cats, fs)
  {
    var cleared := ClearCats(cats).0;
    assert Fits(cleared, fs, textslots);
    forall k | 0 <= k < |cleared|
      ensures Tallied(cleared[k], [], k + 1)
    {
    }
    WritesTally(cleared, fs, textslots);
  }

  /** The order `close` sorts the features into: category id, then
      subcategory id. */
  predicate SortedByIds(fs: seq<FeaturePOI>)
  {
    forall i, j :: 0 <= i < j < |fs| ==>
      fs[i].categoryid < fs[j].categoryid || (fs[i].categoryid == fs[j].categoryid && fs[i].subcategoryid <= fs[j].subcategoryid)
  }

  /** With the features sorted, the POIs of a category or subcategory have
      consecutive slots. */
  lemma {:induction false} PoisConsecutive(fs: seq<FeaturePOI>, c: int, s: Option<int>)
    requires SortedByIds(fs) && Named(fs)
    ensures Consecutive(Pois(fs, c, s))
  {
    if |fs| > 0 {
      var n := |fs| - 1;
      var pre := fs[..n];
      assert SortedByIds(pre) && Named(pre);
      PoisConsecutive(pre, c, s);
      var p := Pois(pre, c, s);
      if Member(fs[n], c, s) {
        assert Pois(fs, c, s) == p + [(n + 1, Name(fs[n]))];
        if |p| > 0 {
          PoisBefore(fs, c, s);
        }
        ConsecutiveSnoc(p, (n + 1, Name(fs[n])));
      } else {
        assert Pois(fs, c, s) == p + [];
        assert p + [] == p;
      }
    }
  }

  /** When the last feature is a member and an earlier one is, so is the
      one before the last, in sorted order. */
  lemma PoisBefore(fs: seq<FeaturePOI>, c: int, s: Option<int>)
    requires SortedByIds(fs) && Named(fs) && |fs| > 0 && Member(fs[|fs| - 1], c, s)
    requires |Pois(fs[..|fs| - 1], c, s)| > 0
    ensures var p := Pois(fs[..|fs| - 1], c, s); p[|p| - 1].0 == |fs| - 1
  {
    var n := |fs| - 1;
    var pre := fs[..n];
    assert Named(pre);
    var p := Pois(pre, c, s);
    PoisSlotted(pre, c, s);
    var q := p[0].0 - 1;
    assert Member(fs[q], c, s);
    if q < n - 1 {
      Sandwiched(fs, c, s, q, n - 1, n);
    }
    PoisMember(pre, c, s);
  }

  /** Between two members of a category or subcategory in sorted order,
      every feature is a member too. */
  lemma Sandwiched(fs: seq<FeaturePOI>, c: int, s: Option<int>, q: nat, m: nat, n: nat)
    requires SortedByIds(fs) && q < m < n < |fs| && Member(fs[q], c, s) && Member(fs[n], c, s)
    ensures Member(fs[m], c, s)
  {
    assert fs[q].categoryid < fs[m].categoryid
      || (fs[q].categoryid == fs[m].categoryid && fs[q].subcategoryid <= fs[m].subcategoryid);
    assert fs[m].categoryid < fs[n].categoryid
      || (fs[m].categoryid == fs[n].categoryid && fs[m].subcategoryid <= fs[n].subcategoryid);
  }

  lemma PoisMember(fs: seq<FeaturePOI>, c: int, s: Option<int>)
    requires |fs| > 0 && Member(fs[|fs| - 1], c, s)
    ensures var p := Pois(fs, c, s); |p| > 0 && p[|p| - 1].0 == |fs|
  {
  }

  /** Each slot is one more than the one before. */
  predicate Consecutive(p: seq<(int, string)>)
  {
    forall i :: 0 <= i < |p| - 1 ==> p[i + 1].0 == p[i].0 + 1
  }

  lemma ConsecutiveSnoc(p: seq<(int, string)>, x: (int, string))
    requires Consecutive(p) && (|p| > 0 ==> x.0 == p[|p| - 1].0 + 1)
    ensures Consecutive(p + [x])
  {
    var q := p + [x];
    forall i | 0 <= i < |q| - 1
      ensures q[i + 1].0 == q[i].0 + 1
    {
      if i < |p| - 1 {
        assert q[i] == p[i] && q[i + 1] == p[i + 1];
      }
    }
  }

  lemma {:induction false} SpanOfConsecutive(p: seq<(int, string)>)
    requires |p| > 0 && Consecutive(p)
    ensures p[|p| - 1].0 == p[0].0 + |p| - 1
  {
    if |p| > 1 {
      SpanOfConsecutive(p[..|p| - 1]);
    }
  }

  /** With the features sorted by ids, a category or subcategory that has
      POIs covers exactly the slots from its first to its last:
      lastslot - firstslot + 1 is its POI count. */
  lemma SortedSpan(fs: seq<FeaturePOI>, c: int, s: Option<int>)
    requires SortedByIds(fs) && Named(fs) && |Pois(fs, c, s)| > 0
    ensures var st := Replay(Pois(fs, c, s)).0; st.lastslot == st.firstslot + st.poicount - 1
  {
    PoisSlotted(fs, c, s);
    ReplaySummary(Pois(fs, c, s));
    PoisConsecutive(fs, c, s);
    SpanOfConsecutive(Pois(fs, c, s));
  }

  // ---------------------------------------------------------------------
  // The order `close` sorts the features into
  // ---------------------------------------------------------------------

  /** The sort key of a feature: category id, subcategory id and the
      upper-cased name. */
  datatype SortKey = SortKey(cat: int, subcat: int, name: string)

  function KeyOf(f: FeaturePOI): SortKey
  {
    SortKey(f.categoryid, f.subcategoryid, seq(|Name(f)|, i requires 0 <= i < |Name(f)| => DBUtil.Upper(Name(f)[i])))
  }

  /** `cmp` of two key tuples is negative: the first field that differs
      decides. */
  predicate KeyLess(a: SortKey, b: SortKey)
  {
    a.cat < b.cat || (a.cat == b.cat && (a.subcat < b.subcat || (a.subcat == b.subcat && SearchGroup.StrLess(a.name, b.name))))
  }

  lemma KeyLessTotal(a: SortKey, b: SortKey)
    ensures !KeyLess(a, b) && !KeyLess(b, a) ==> a == b
    ensures !(KeyLess(a, b) && KeyLess(b, a))
  {
    SearchGroup.StrLessTotal(a.name, b.name);
  }

  lemma KeyLessTransitive(a: SortKey, b: SortKey, c: SortKey)
    requires KeyLess(a, b) && KeyLess(b, c)
    ensures KeyLess(a, c)
  {
    if a.cat == b.cat == c.cat && a.subcat == b.subcat == c.subcat {
      SearchGroup.StrLessTransitive(a.name, b.name, c.name);
    }
  }

  /** No feature's key is below that of a feature before it. */
  predicate KeySorted(fs: seq<FeaturePOI>)
  {
    forall i, j :: 0 <= i < j < |fs| ==> !KeyLess(KeyOf(fs[j]), KeyOf(fs[i]))
  }

  /** A feature inserted into sorted features after every one whose key
      is not above its own, as a stable sort places it. */
  function InsertByKey(fs: seq<FeaturePOI>, f: FeaturePOI): (r: seq<FeaturePOI>)
    ensures |r| == |fs| + 1
  {
    if |fs| == 0 then [f]
    else if KeyLess(KeyOf(f), KeyOf(fs[|fs| - 1])) then InsertByKey(fs[..|fs| - 1], f) + [fs[|fs| - 1]]
    else fs + [f]
  }

  /** `list.sort` with the key comparison, by insertion. */
  function SortByKey(fs: seq<FeaturePOI>): (r: seq<FeaturePOI>)
    ensures |r| == |fs|
  {
    if |fs| == 0 then [] else InsertByKey(SortByKey(fs[..|fs| - 1]), fs[|fs| - 1])
  }

  /** The sort of `close`: the comparison takes the first aux text of both
      features, so with two features or more one without aux texts raises
      IndexError. */
  function SortFeatures(fs: seq<FeaturePOI>): (r: Result<seq<FeaturePOI>>)
    ensures r.Fail? <==> |fs| >= 2 && exists i :: 0 <= i < |fs| && |fs[i].aux| == 0
    ensures r.Fail? ==> r.failure == IndexError
  {
    if |fs| >= 2 && exists i :: 0 <= i < |fs| && |fs[i].aux| == 0 then Fail(IndexError) else Ok(SortByKey(fs))
  }

  lemma {:induction false} InsertByKeyPermutes(fs: seq<FeaturePOI>, f: FeaturePOI)
    ensures multiset(InsertByKey(fs, f)) == multiset(fs) + multiset{f}
  {
    if |fs| > 0 && KeyLess(KeyOf(f), KeyOf(fs[|fs| - 1])) {
      InsertByKeyPermutes(fs[..|fs| - 1], f);
      assert fs == fs[..|fs| - 1] + [fs[|fs| - 1]];
    }
  }

  /** Inserting keeps the features sorted; every feature keeps a key not
      below that of any feature before it. */
  lemma {:induction false} InsertByKeySorted(fs: seq<FeaturePOI>, f: FeaturePOI)
    requires KeySorted(fs)
    ensures KeySorted(InsertByKey(fs, f))
  {
    var r := InsertByKey(fs, f);
    if |fs| > 0 {
      var n := |fs| - 1;
      var last := fs[n];
      if KeyLess(KeyOf(f), KeyOf(last)) {
        var front := fs[..n];
        assert KeySorted(front);
        InsertByKeySorted(front, f);
        var ins := InsertByKey(front, f);
        forall i | 0 <= i < |ins|
          ensures !KeyLess(KeyOf(last), KeyOf(ins[i]))
        {
          assert ins[i] in ins;
          NotAboveLast(fs, f, ins[i]);
        }
        AppendSorted(ins, last);
      } else {
        forall i | 0 <= i < |fs|
          ensures !KeyLess(KeyOf(f), KeyOf(fs[i]))
        {
          if i < n && KeyLess(KeyOf(f), KeyOf(fs[i])) {
            KeyLessTotal(KeyOf(fs[i]), KeyOf(last));
            if KeyOf(fs[i]) != KeyOf(last) {
              KeyLessTransitive(KeyOf(f), KeyOf(fs[i]), KeyOf(last));
            }
          }
        }
        AppendSorted(fs, f);
      }
    }
  }

  /** A feature of the inserted front is not above the last of sorted
      features that the inserted one is below. */
  lemma NotAboveLast(fs: seq<FeaturePOI>, f: FeaturePOI, g: FeaturePOI)
    requires |fs| > 0 && KeySorted(fs) && KeyLess(KeyOf(f), KeyOf(fs[|fs| - 1]))
    requires g in InsertByKey(fs[..|fs| - 1], f)
    ensures !KeyLess(KeyOf(fs[|fs| - 1]), KeyOf(g))
  {
    var n := |fs| - 1;
    InsertByKeyFrom(fs[..n], f);
    if g == f {
      KeyLessTotal(KeyOf(f), KeyOf(fs[n]));
    } else {
      var k :| 0 <= k < n && fs[..n][k] == g;
      assert fs[k] == g;
    }
  }

  /** Every feature after inserting is the inserted one or was there. */
  lemma {:induction false} InsertByKeyFrom(fs: seq<FeaturePOI>, f: FeaturePOI)
    ensures forall g :: g in InsertByKey(fs, f) ==> g == f || g in fs
  {
    if |fs| > 0 && KeyLess(KeyOf(f), KeyOf(fs[|fs| - 1])) {
      InsertByKeyFrom(fs[..|fs| - 1], f);
      forall g | g in InsertByKey(fs, f)
        ensures g == f || g in fs
      {
        if g != fs[|fs| - 1] && g != f {
          assert g in InsertByKey(fs[..|fs| - 1], f);
          assert g in fs[..|fs| - 1];
        }
      }
    }
  }

  /** A feature whose key is not below any of sorted features can follow
      them. */
  lemma AppendSorted(fs: seq<FeaturePOI>, f: FeaturePOI)
    requires KeySorted(fs) && forall i :: 0 <= i < |fs| ==> !KeyLess(KeyOf(f), KeyOf(fs[i]))
    ensures KeySorted(fs + [f])
  {
    var r := fs + [f];
    forall i, j | 0 <= i < j < |r|
      ensures !KeyLess(KeyOf(r[j]), KeyOf(r[i]))
    {
      if j < |fs| {
        assert r[i] == fs[i] && r[j] == fs[j];
      } else {
        assert r[i] == fs[i];
      }
    }
  }

  /** The sort gives the same features, as a permutation, in key order. */
  lemma {:induction false} SortByKeySorts(fs: seq<FeaturePOI>)
    ensures multiset(SortByKey(fs)) == multiset(fs)
    ensures KeySorted(SortByKey(fs))
  {
    if |fs| > 0 {
      var n := |fs| - 1;
      SortByKeySorts(fs[..n]);
      InsertByKeyPermutes(SortByKey(fs[..n]), fs[n]);
      InsertByKeySorted(SortByKey(fs[..n]), fs[n]);
      assert fs == fs[..n] + [fs[n]];
    }
  }

  /** Key order is id order. */
  lemma KeySortedByIds(fs: seq<FeaturePOI>)
    requires KeySorted(fs)
    ensures SortedByIds(fs)
  {
    forall i, j | 0 <= i < j < |fs|
      ensures fs[i].categoryid < fs[j].categoryid || (fs[i].categoryid == fs[j].categoryid && fs[i].subcategoryid <= fs[j].subcategoryid)
    {
      assert !KeyLess(KeyOf(fs[j]), KeyOf(fs[i]));
    }
  }

  /** `close` of the POI group with its sort: the features sorted, then
      the statistics cleared and the rows written in sorted order, with the
      text slots the aux table returned for them. */
  function CloseSorted(cats: seq<CatStats>, fs: seq<FeaturePOI>, textslots: seq<int>): (r: Closing)
    requires |textslots| == |fs|
  {
    var sorted := SortFeatures(fs);
    if sorted.Fail? then Closing(cats, [], Some(sorted.failure)) else Close(cats, sorted.value, textslots)
  }

  /** `close` with its sort, for named features that all fit once
      sorted: nothing raises, the rows are those of the sorted features and
      every category and subcategory holds the statistics of its own POIs
      in sorted order. */
  lemma CloseSortedTally(cats: seq<CatStats>, fs: seq<FeaturePOI>, textslots: seq<int>)
    requires |textslots| == |fs| && Named(fs)
    requires Fits(cats, SortByKey(fs), textslots)
    requires forall k, j :: 0 <= k < |cats| && 0 <= j < |cats[k].subs| ==> cats[k].subs[j].Some?
    ensures var r := CloseSorted(cats, fs, textslots);
      && r.error.None? && RowsOf(r.rows, SortByKey(fs), textslots) && AllTallied(r.cats, SortByKey(fs))
  {
    SortedNamed(fs);
    CloseTally(cats, SortByKey(fs), textslots);
  }

  /** The sorted features are named and in id order, and the sort raises
      nothing. */
  lemma SortedNamed(fs: seq<FeaturePOI>)
    requires Named(fs)
    ensures SortFeatures(fs) == Ok(SortByKey(fs))
    ensures Named(SortByKey(fs)) && SortedByIds(SortByKey(fs))
  {
    SortByKeySorts(fs);
    NamedPermuted(fs, SortByKey(fs));
    KeySortedByIds(SortByKey(fs));
  }

  /** In features sorted by ids, the statistics `close` tallies for a
      category or subcategory count its POIs and, when it has any, span
      exactly the slots from its first to its last. */
  lemma TallySpan(fs: seq<FeaturePOI>, c: int, s: Option<int>)
    requires SortedByIds(fs) && Named(fs)
    ensures var st := Tally(fs, c, s); var p := Pois(fs, c, s);
      && st.poicount == |p|
      && (|p| > 0 ==> st.firstslot == p[0].0 && st.lastslot == st.firstslot + st.poicount - 1)
  {
    TallyReplay(fs, c, s);
    PoisSlotted(fs, c, s);
    ReplaySummary(Pois(fs, c, s));
    if |Pois(fs, c, s)| > 0 {
      SortedSpan(fs, c, s);
    }
  }

  /** A permutation of named features is named. */
  lemma NamedPermuted(fs: seq<FeaturePOI>, gs: seq<FeaturePOI>)
    requires Named(fs) && multiset(gs) == multiset(fs)
    ensures Named(gs)
  {
    forall i | 0 <= i < |gs|
      ensures |Name(gs[i])| > 0
    {
      assert gs[i] in multiset(fs) by {
        assert gs[i] in multiset(gs);
      }
      var k :| 0 <= k < |fs| && fs[k] == gs[i];
    }
  }
}
