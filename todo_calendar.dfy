/**
 * The team calendar: the per-category colour generator, the colour cache,
 * the live `TODO_UPDATED` patch of the cached category list, the grouping
 * of todos into per-day buckets and the day-tile class name.
 */
module TodoCalendar {
  import opened JsCore
  import opened ColorHash
  import opened Records

  // ---------------------------------------------------------------------
  // Category colours

  /** The six hue zones `{min, max}` the generator picks from. */
  const ColorZones: seq<(int, int)> :=
    [(0, 30), (60, 90), (120, 150), (180, 210), (240, 270), (300, 330)]
  const SaturationOptions: seq<int> := [70, 85, 95]
  const LightnessOptions: seq<int> := [45, 60, 75]
  /** The colour of a category without an id. */
  const FallbackColor: string := "#FF4757"

  /** The colour read out of a category hash. The lightness index is the
      non-negative `floor(absHash / 4) % 3`; the source's `absHash >> 2`
      agrees with it except at `absHash == 2^31` (see
      `CategoryValuesAsWritten`). */
  function CategoryHsl(hash: int): (c: Hsl)
    ensures var zone := ColorZones[Abs(hash) % |ColorZones|];
      zone.0 <= c.hue < zone.1
    ensures 0 <= c.hue < 360
    ensures c.saturation in SaturationOptions
    ensures c.lightness in LightnessOptions
  {
    var absHash := Abs(hash);
    var zone := ColorZones[absHash % |ColorZones|];
    Hsl(zone.0 + absHash % (zone.1 - zone.0),
        SaturationOptions[absHash % |SaturationOptions|],
        LightnessOptions[(absHash / 4) % |LightnessOptions|])
  }

  /** The colour of a category: the fallback for a falsy id, otherwise the
      colour of the hash of `String(catId)`. */
  function CategoryColor(catId: Scalar): string {
    if !Truthy(catId) then FallbackColor
    else HslText(CategoryHsl(WrappedHash(Utf16(ToStr(catId)))))
  }

  /** The generator: the hash loop, then the colour read out of the hash. */
  method GenerateCategoryColor(catId: Scalar) returns (color: string)
    ensures color == CategoryColor(catId)
  {
    if !Truthy(catId) {
      return FallbackColor;
    }
    var hash := ComputeWrappedHash(Utf16(ToStr(catId)));
    color := HslText(CategoryHsl(hash));
  }

  /** A generated colour is `hsl(..)` text or the fallback, never empty and
      never one of the two placeholder colours the server stores. */
  lemma CategoryColorIsUsable(catId: Scalar)
    ensures CategoryColor(catId) == FallbackColor || StartsWith(CategoryColor(catId), "hsl(")
    ensures UsableServerColor(CategoryColor(catId))
  {
    if Truthy(catId) {
      var c := CategoryHsl(WrappedHash(Utf16(ToStr(catId))));
      HslShape(ToStr(Num(c.hue)), ToStr(Num(c.saturation)), ToStr(Num(c.lightness)));
    }
  }

  /** The hue, saturation and lightness as the source computes them:
      `absHash >> 2` is a signed 32-bit shift, and `lightnessOptions[i]`
      is `undefined` outside 0..2. */
  function CategoryValuesAsWritten(hash: int): (Scalar, Scalar, Scalar) {
    var absHash := Abs(hash);
    var zone := ColorZones[JsRem(absHash, |ColorZones|)];
    (Num(zone.0 + JsRem(absHash, zone.1 - zone.0)),
     Index(SaturationOptions, JsRem(absHash, |SaturationOptions|)),
     Index(LightnessOptions, JsRem(ShiftRight2(absHash), |LightnessOptions|)))
  }

  function CategoryColorAsWritten(catId: Scalar): string {
    if !Truthy(catId) then FallbackColor
    else
      var v := CategoryValuesAsWritten(WrappedHash(Utf16(ToStr(catId))));
      HslTemplate(v.0, v.1, v.2)
  }

  /** Below `absHash == 2^31` the source computes the intended colour. */
  lemma AsWrittenAgreesBelowEdge(hash: int)
    requires -TwoTo31 < hash < TwoTo31
    ensures var c := CategoryHsl(hash);
      CategoryValuesAsWritten(hash) == (Num(c.hue), Num(c.saturation), Num(c.lightness))
  {
    var absHash := Abs(hash);
    assert ShiftRight2(absHash) == absHash / 4 by {
    }
  }

  /** So every category id whose hash is not -2^31 gets the intended colour
      from the source's generator. */
  lemma AsWrittenAgreesOffEdge(catId: Scalar)
    requires WrappedHash(Utf16(ToStr(catId))) != -TwoTo31
    ensures CategoryColorAsWritten(catId) == CategoryColor(catId)
  {
    if Truthy(catId) {
      AsWrittenAgreesBelowEdge(WrappedHash(Utf16(ToStr(catId))));
    }
  }

  /** At `hash == -2^31`, `Math.abs` gives 2^31, `2^31 >> 2` is -2^29,
      `-2^29 % 3` is -2, and the lightness is `undefined`; the intended
      lightness index `2^29 % 3` is 2. */
  lemma AsWrittenEdge()
    ensures CategoryValuesAsWritten(-TwoTo31) == (Num(128), Num(95), Undef)
    ensures CategoryHsl(-TwoTo31) == Hsl(128, 95, 75)
  {
    EdgeLightnessUndefined();
  }

  lemma EdgeLightnessUndefined()
    ensures JsRem(ShiftRight2(TwoTo31), 3) == -2
  {
    assert ShiftRight2(TwoTo31) == -0x2000_0000;
  }

  lemma EdgeNumbersText()
    ensures IntToString(128) == "128" && IntToString(95) == "95" && IntToString(75) == "75"
  {
    assert NatToString(12) == "12";
  }

  lemma EdgeColorTexts()
    ensures HslTemplate(Num(128), Num(95), Undef) == "hsl(128, 95%, undefined%)"
    ensures HslText(Hsl(128, 95, 75)) == "hsl(128, 95%, 75%)"
  {
    EdgeNumbersText();
    assert HslFromTexts("128", "95", "undefined") == "hsl(128, 95%, undefined%)";
    assert HslFromTexts("128", "95", "75") == "hsl(128, 95%, 75%)";
  }

  lemma Text539019926()
    ensures IntToString(539019926) == "539019926"
  {
    assert NatToString(53) == "53";
    assert NatToString(5390) == "5390";
    assert NatToString(53901) == "53901";
    assert NatToString(5390199) == "5390199";
  }

  /** One step of the hash loop over concrete values. */
  lemma HashStepValue(units: seq<int>, k: nat, before: int, after: int)
    requires k < |units| && WrappedHash(units[..k]) == before
    requires after == WrappedStep(before, units[k])
    ensures WrappedHash(units[..k + 1]) == after
  {
    assert units[..k + 1][..k] == units[..k];
  }

  /** A step of the hash over concrete numbers, given how many multiples of
      2^32 the shift and the wrap each drop. */
  lemma StepValue(before: int, c: int, shifted: int, after: int, k1: int, k2: int)
    requires -TwoTo31 <= before < TwoTo31
    requires -TwoTo31 <= shifted < TwoTo31 && before * 32 == shifted + k1 * TwoTo32
    requires -TwoTo31 <= after < TwoTo31 && shifted - before + c == after + k2 * TwoTo32
    ensures WrappedStep(before, c) == after
  {
    ToInt32Periodic(shifted, k1);
    ToInt32Periodic(after, k2);
  }

  /** The code units of "539019926". */
  predicate IsText539019926(units: seq<int>) {
    |units| == 9 && units[0] == 53 && units[1] == 51 && units[2] == 57 && units[3] == 48
    && units[4] == 49 && units[5] == 57 && units[6] == 57 && units[7] == 50 && units[8] == 54
  }

  lemma HashOf539019926First(units: seq<int>)
    requires IsText539019926(units)
    ensures WrappedHash(units[..3]) == 52571
  {
    assert units[..0] == [];
    StepValue(0, 53, 0, 53, 0, 0);
    HashStepValue(units, 0, 0, 53);
    StepValue(53, 51, 1696, 1694, 0, 0);
    HashStepValue(units, 1, 53, 1694);
    StepValue(1694, 57, 54208, 52571, 0, 0);
    HashStepValue(units, 2, 1694, 52571);
  }

  lemma HashOf539019926Middle(units: seq<int>)
    requires IsText539019926(units)
    ensures WrappedHash(units[..6]) == 1566190365
  {
    HashOf539019926First(units);
    StepValue(52571, 48, 1682272, 1629749, 0, 0);
    HashStepValue(units, 3, 52571, 1629749);
    StepValue(1629749, 49, 52151968, 50522268, 0, 0);
    HashStepValue(units, 4, 1629749, 50522268);
    StepValue(50522268, 57, 1616712576, 1566190365, 0, 0);
    HashStepValue(units, 5, 50522268, 1566190365);
  }

  lemma HashOf539019926Units(units: seq<int>)
    requires IsText539019926(units)
    ensures WrappedHash(units) == -TwoTo31
  {
    HashOf539019926Middle(units);
    StepValue(1566190365, 57, -1421515872, 1307261116, 12, -1);
    HashStepValue(units, 6, 1566190365, 1307261116);
    StepValue(1307261116, 50, -1117317248, 1870388982, 10, -1);
    HashStepValue(units, 7, 1307261116, 1870388982);
    StepValue(1870388982, 54, -277094720, -TwoTo31, 14, 0);
    HashStepValue(units, 8, 1870388982, -TwoTo31);
    assert units[..9] == units;
  }

  /** The text "539019926" hashes to exactly -2^31. */
  lemma HashOf539019926()
    ensures WrappedHash(Utf16("539019926")) == -TwoTo31
  {
    Utf16OfBmp("539019926");
    HashOf539019926Units(Utf16("539019926"));
  }

  /** Any category id that hashes to -2^31 gets an `undefined` lightness
      from the source's generator. */
  lemma AsWrittenAtEdge(catId: Scalar)
    requires Truthy(catId) && WrappedHash(Utf16(ToStr(catId))) == -TwoTo31
    ensures CategoryColorAsWritten(catId) == "hsl(128, 95%, undefined%)"
    ensures CategoryColor(catId) == "hsl(128, 95%, 75%)"
  {
    AsWrittenEdge();
    EdgeColorTexts();
  }

  /** Category id 539019926, as a number or as text, gets the colour
      `hsl(128, 95%, undefined%)` from the source's generator, while the
      corrected generator gives `hsl(128, 95%, 75%)`. */
  lemma CategoryColorAsWrittenFails()
    ensures CategoryColorAsWritten(Str("539019926")) == "hsl(128, 95%, undefined%)"
    ensures CategoryColorAsWritten(Num(539019926)) == "hsl(128, 95%, undefined%)"
    ensures CategoryColor(Num(539019926)) == "hsl(128, 95%, 75%)"
  {
    HashOf539019926();
    Text539019926();
    AsWrittenAtEdge(Str("539019926"));
    AsWrittenAtEdge(Num(539019926));
  }

  // ---------------------------------------------------------------------
  // Colour choice and cache

  /** A server colour is used unless it is empty or one of the two
      placeholder colours. */
  predicate UsableServerColor(c: string) {
    c != "" && c != "#007bff" && c != "#000000"
  }

  /** The first category whose `catId` is `===` the given one. */
  function FindCategory(categories: seq<Category>, catId: Scalar): (r: Option<Category>)
    ensures r.Some? ==> r.value in categories && StrictEq(r.value.catId, catId)
    ensures r.None? ==> forall c :: c in categories ==> !StrictEq(c.catId, catId)
    ensures r.Some? ==> exists i :: (0 <= i < |categories| && categories[i] == r.value
      && forall j :: 0 <= j < i ==> !StrictEq(categories[j].catId, catId))
  {
    if categories == [] then None
    else if StrictEq(categories[0].catId, catId) then Some(categories[0])
    else
      var r := FindCategory(categories[1..], catId);
      assert r.Some? ==> exists i :: (0 <= i < |categories[1..]| && categories[1..][i] == r.value
        && forall j :: 0 <= j < i ==> !StrictEq(categories[1..][j].catId, catId));
      if r.Some? then
        var i :| 0 <= i < |categories[1..]| && categories[1..][i] == r.value
          && forall j :: 0 <= j < i ==> !StrictEq(categories[1..][j].catId, catId);
        assert categories[i + 1] == r.value;
        r
      else r
  }

  /** The colour `getCategoryColor` settles on when nothing is cached:
      the server's colour when usable, otherwise the generated one. */
  function ChosenColor(categories: seq<Category>, catId: Scalar): (color: string)
    ensures UsableServerColor(color)
    ensures var m := FindCategory(categories, catId);
      if m.Some? && m.value.catColor.Some? && UsableServerColor(m.value.catColor.value)
      then color == m.value.catColor.value
      else color == CategoryColor(catId)
  {
    CategoryColorIsUsable(catId);
    var m := FindCategory(categories, catId);
    if m.Some? && m.value.catColor.Some? && UsableServerColor(m.value.catColor.value)
    then m.value.catColor.value
    else CategoryColor(catId)
  }

  /** The cache key `${catId}_${catName}`. */
  function ColorKey(catId: Scalar, catName: Scalar): string {
    ToStr(catId) + "_" + ToStr(catName)
  }

  /** What `getCategoryColor` returns against a given cache. */
  function ResolveColor(cache: map<string, string>, categories: seq<Category>,
                        catId: Scalar, catName: Scalar): (color: string)
    ensures var k := ColorKey(catId, catName);
      k in cache && cache[k] != "" ==> color == cache[k]
    ensures var k := ColorKey(catId, catName);
      !(k in cache && cache[k] != "") ==> color == ChosenColor(categories, catId)
  {
    var k := ColorKey(catId, catName);
    if k in cache && cache[k] != "" then cache[k] else ChosenColor(categories, catId)
  }

  // ---------------------------------------------------------------------
  // The TODO_UPDATED patch

  /** A parsed socket frame; frames that do not parse to an object are
      `None` at the call site. */
  datatype CalendarMessage = CalendarMessage(kind: Scalar, todoId: Scalar,
                                             newTitle: Scalar, newDueDate: Scalar)

  /** The query data cached under `['categoryTodos', teamId]`. */
  datatype QueryData = Absent | NotAList(value: Scalar) | Categories(list: seq<Category>)

  function PatchTodo(t: Todo, m: CalendarMessage): (r: Todo)
    ensures StrictEq(t.todoId, m.todoId) ==>
      r == t.(todoTitle := m.newTitle, dueDate := m.newDueDate)
    ensures !StrictEq(t.todoId, m.todoId) ==> r == t
  {
    if StrictEq(t.todoId, m.todoId) then t.(todoTitle := m.newTitle, dueDate := m.newDueDate) else t
  }

  function PatchTodos(ts: seq<Todo>, m: CalendarMessage): (r: seq<Todo>)
    ensures |r| == |ts|
    ensures forall i :: 0 <= i < |ts| ==> r[i] == PatchTodo(ts[i], m)
  {
    seq(|ts|, i requires 0 <= i < |ts| => PatchTodo(ts[i], m))
  }

  function PatchCategory(c: Category, m: CalendarMessage): (r: Category)
    ensures c.todos.None? ==> r == c
    ensures c.todos.Some? ==> r == c.(todos := Some(PatchTodos(c.todos.value, m)))
  {
    match c.todos
    case None => c
    case Some(ts) => c.(todos := Some(PatchTodos(ts, m)))
  }

  /** The updater handed to `setQueryData` for a `TODO_UPDATED` message. */
  function ApplyTodoUpdated(data: QueryData, m: CalendarMessage): (r: QueryData)
    ensures !data.Categories? ==> r == data
    ensures data.Categories? ==> (r.Categories? && |r.list| == |data.list|
      && forall i :: 0 <= i < |data.list| ==> r.list[i] == PatchCategory(data.list[i], m))
  {
    match data
    case Categories(cs) => Categories(seq(|cs|, i requires 0 <= i < |cs| => PatchCategory(cs[i], m)))
    case _ => data
  }

  /** The patch changes exactly the title and due date of the todos whose
      id is `===` the message's, and nothing else: categories keep their
      count, order and other fields, categories without a todo list are
      untouched, and other todos are untouched. */
  lemma TodoUpdatedChangesOnlyMatches(cs: seq<Category>, m: CalendarMessage)
    ensures var r := ApplyTodoUpdated(Categories(cs), m).list;
      |r| == |cs|
      && (forall i :: 0 <= i < |cs| ==>
            r[i].catId == cs[i].catId && r[i].catName == cs[i].catName
            && r[i].catColor == cs[i].catColor
            && r[i].todos.Some? == cs[i].todos.Some?)
      && (forall i :: 0 <= i < |cs| && cs[i].todos.None? ==> r[i] == cs[i])
      && (forall i, j :: 0 <= i < |cs| && cs[i].todos.Some? && 0 <= j < |cs[i].todos.value| ==>
            var before := cs[i].todos.value[j];
            var after := r[i].todos.value[j];
            |r[i].todos.value| == |cs[i].todos.value|
            && (StrictEq(before.todoId, m.todoId) ==>
                  after.todoTitle == m.newTitle && after.dueDate == m.newDueDate
                  && after.(todoTitle := before.todoTitle, dueDate := before.dueDate) == before)
            && (!StrictEq(before.todoId, m.todoId) ==> after == before))
  {
  }

  /** Applying the same update twice is the same as applying it once. */
  lemma TodoUpdatedIdempotent(data: QueryData, m: CalendarMessage)
    ensures ApplyTodoUpdated(ApplyTodoUpdated(data, m), m) == ApplyTodoUpdated(data, m)
  {
    if data.Categories? {
      var once := ApplyTodoUpdated(data, m);
      var twice := ApplyTodoUpdated(once, m);
      assert twice.list == once.list by {
        forall i | 0 <= i < |once.list| ensures twice.list[i] == once.list[i] {
          var c := data.list[i];
          if c.todos.Some? {
            var ts := c.todos.value;
            assert PatchTodos(PatchTodos(ts, m), m) == PatchTodos(ts, m);
          }
        }
      }
    }
  }

  // ---------------------------------------------------------------------
  // Events by date

  /** A todo as shown on the calendar: `{...todo, catId, catName, catColor}`. */
  datatype Event = Event(todo: Todo, catId: Scalar, catName: Scalar, catColor: string)

  const Unclassified: string := "미분류"

  /** `category.catName || matchedCategory?.catName || '미분류'` */
  function EventCategoryName(category: Category, categories: seq<Category>): (r: Scalar)
    ensures Truthy(r)
    ensures Truthy(category.catName) ==> r == category.catName
  {
    var matched := FindCategory(categories, category.catId);
    if Truthy(category.catName) then category.catName
    else if matched.Some? && Truthy(matched.value.catName) then matched.value.catName
    else Str(Unclassified)
  }

  function CategoryEvents(category: Category, categories: seq<Category>,
                          cache: map<string, string>): (r: seq<Event>)
    ensures category.todos.None? ==> r == []
    ensures category.todos.Some? ==> (|r| == |category.todos.value|
      && forall i :: 0 <= i < |r| ==> (r[i].todo == category.todos.value[i]
         && r[i].catId == category.catId))
  {
    var ts := if category.todos.Some? then category.todos.value else [];
    var color := ResolveColor(cache, categories, category.catId, category.catName);
    var name := EventCategoryName(category, categories);
    seq(|ts|, i requires 0 <= i < |ts| => Event(ts[i], category.catId, name, color))
  }

  /** The `flatMap` over the categories. */
  function Events(categoryTodos: seq<Category>, categories: seq<Category>,
                  cache: map<string, string>): (r: seq<Event>)
  {
    if categoryTodos == [] then []
    else Events(categoryTodos[..|categoryTodos| - 1], categories, cache)
         + CategoryEvents(categoryTodos[|categoryTodos| - 1], categories, cache)
  }

  /** An event belongs in the bucket for `key` when it has a due date and
      the date key of that date is `key`. */
  predicate InBucket(e: Event, dateKey: Scalar -> string, key: string) {
    Truthy(e.todo.dueDate) && dateKey(e.todo.dueDate) == key
  }

  /** `InBucket` as the test handed to `Filter`. */
  function InBucketTest(dateKey: Scalar -> string, key: string): Event -> bool {
    e => InBucket(e, dateKey, key)
  }

  function Bucket(buckets: map<string, seq<Event>>, key: string): seq<Event> {
    if key in buckets then buckets[key] else []
  }

  /** The `reduce` that pushes each dated event into its date's bucket. */
  function GroupByDate(events: seq<Event>, dateKey: Scalar -> string): map<string, seq<Event>> {
    if events == [] then map[]
    else
      var acc := GroupByDate(events[..|events| - 1], dateKey);
      var e := events[|events| - 1];
      if !Truthy(e.todo.dueDate) then acc
      else
        var key := dateKey(e.todo.dueDate);
        acc[key := Bucket(acc, key) + [e]]
  }

  /** Each bucket holds exactly the dated events with its key, in input
      order, and no bucket is empty; so undated todos are in no bucket and
      every dated todo is in exactly one. */
  lemma {:induction false} GroupByDateBuckets(events: seq<Event>, dateKey: Scalar -> string)
    ensures forall key :: (Bucket(GroupByDate(events, dateKey), key)
      == Filter(events, InBucketTest(dateKey, key)))
    ensures forall key :: key in GroupByDate(events, dateKey) ==> GroupByDate(events, dateKey)[key] != []
  {
    if events != [] {
      var prefix := events[..|events| - 1];
      var e := events[|events| - 1];
      GroupByDateBuckets(prefix, dateKey);
      assert events == prefix + [e];
      forall key
        ensures Bucket(GroupByDate(events, dateKey), key) == Filter(events, InBucketTest(dateKey, key))
      {
        FilterAppend(prefix, [e], InBucketTest(dateKey, key));
        assert Filter([e], InBucketTest(dateKey, key)) == if InBucket(e, dateKey, key) then [e] else [];
      }
    }
  }

  /** `eventsByDate`: flatten the categories into events, then push each
      dated event onto the bucket of its date key. */
  method EventsByDate(categoryTodos: seq<Category>, categories: seq<Category>,
                      cache: map<string, string>, dateKey: Scalar -> string)
    returns (buckets: map<string, seq<Event>>)
    ensures buckets == GroupByDate(Events(categoryTodos, categories, cache), dateKey)
    ensures forall key :: (Bucket(buckets, key)
      == Filter(Events(categoryTodos, categories, cache), InBucketTest(dateKey, key)))
  {
    var events := Events(categoryTodos, categories, cache);
    buckets := PushByDate(events, dateKey);
    GroupByDateBuckets(events, dateKey);
  }

  /** The `reduce` loop itself. */
  method PushByDate(events: seq<Event>, dateKey: Scalar -> string) returns (buckets: map<string, seq<Event>>)
    ensures buckets == GroupByDate(events, dateKey)
  {
    buckets := map[];
    var i := 0;
    while i < |events|
      invariant 0 <= i <= |events|
      invariant buckets == GroupByDate(events[..i], dateKey)
    {
      assert events[..i + 1][..i] == events[..i];
      var e := events[i];
      if Truthy(e.todo.dueDate) {
        var key := dateKey(e.todo.dueDate);
        var bucket := if key in buckets then buckets[key] else [];
        buckets := buckets[key := bucket + [e]];
      }
      i := i + 1;
    }
    assert events[..i] == events;
  }

  // ---------------------------------------------------------------------
  // Tile class name

  /** The class name of the calendar tile for day `key` in `view`;
      `None` stands for `null`. */
  function TileClassName(buckets: map<string, seq<Event>>, key: string, view: string): (r: Option<string>)
    ensures view != "month" ==> r == None
    ensures view == "month" ==> (r == None <==> Bucket(buckets, key) == [])
    ensures view == "month" && Bucket(buckets, key) != [] ==>
      (r == Some("has-events incomplete") <==> exists e :: e in Bucket(buckets, key) && !Truthy(e.todo.todoChecked))
    ensures view == "month" && Bucket(buckets, key) != [] ==>
      (r == Some("has-events completed") <==> forall e :: e in Bucket(buckets, key) ==> Truthy(e.todo.todoChecked))
    ensures r != Some("has-events")
  {
    if view != "month" then None
    else
      var today := Bucket(buckets, key);
      if |today| == 0 then None
      else
        var hasCompleted := exists e :: e in today && Truthy(e.todo.todoChecked);
        var hasIncomplete := exists e :: e in today && !Truthy(e.todo.todoChecked);
        assert today[0] in today;
        if hasIncomplete then Some("has-events incomplete")
        else if hasCompleted then Some("has-events completed")
        else assert false; Some("has-events")
  }

  // ---------------------------------------------------------------------
  // Component state

  class Calendar {
    /** Bumped to force the events to be recomputed. */
    var forceUpdate: int
    /** Colours already chosen, under `${catId}_${catName}`. */
    var categoryColors: map<string, string>
    /** The cached `['categoryTodos', teamId]` query data. */
    var categoryTodos: QueryData

    constructor(initial: QueryData)
      ensures forceUpdate == 0 && categoryColors == map[] && categoryTodos == initial
    {
      forceUpdate := 0;
      categoryColors := map[];
      categoryTodos := initial;
    }

    /** `getCategoryColor`: a cached non-empty colour is returned as is;
        otherwise the colour is chosen and recorded under its key. */
    method GetCategoryColor(categories: seq<Category>, catId: Scalar, catName: Scalar)
      returns (color: string)
      modifies this
      ensures color == ResolveColor(old(categoryColors), categories, catId, catName)
      ensures var k := ColorKey(catId, catName);
        if k in old(categoryColors) && old(categoryColors)[k] != ""
        then categoryColors == old(categoryColors)
        else categoryColors == old(categoryColors)[k := color]
      ensures forceUpdate == old(forceUpdate) && categoryTodos == old(categoryTodos)
    {
      var k := ColorKey(catId, catName);
      if k in categoryColors && categoryColors[k] != "" {
        return categoryColors[k];
      }
      var matched := FindCategory(categories, catId);
      if matched.Some? && matched.value.catColor.Some? && UsableServerColor(matched.value.catColor.value) {
        color := matched.value.catColor.value;
      } else {
        color := GenerateCategoryColor(catId);
      }
      categoryColors := categoryColors[k := color];
    }

    /** `handleWebSocketMessage`: a `TODO_UPDATED` message patches the
        cached list and bumps `forceUpdate` by one; anything else, including
        a frame that does not parse, changes nothing. */
    method HandleWebSocketMessage(frame: Option<CalendarMessage>)
      modifies this
      ensures frame.Some? && StrictEq(frame.value.kind, Str("TODO_UPDATED")) ==>
        categoryTodos == ApplyTodoUpdated(old(categoryTodos), frame.value)
        && forceUpdate == old(forceUpdate) + 1
      ensures !(frame.Some? && StrictEq(frame.value.kind, Str("TODO_UPDATED"))) ==>
        categoryTodos == old(categoryTodos) && forceUpdate == old(forceUpdate)
      ensures categoryColors == old(categoryColors)
    {
      if frame.None? {
        return;
      }
      var message := frame.value;
      if StrictEq(message.kind, Str("TODO_UPDATED")) {
        categoryTodos := ApplyTodoUpdated(categoryTodos, message);
        forceUpdate := forceUpdate + 1;
      }
    }
  }
}
