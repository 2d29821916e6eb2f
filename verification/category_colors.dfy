/** The category colour lookups of the task card badge and the calendar's
    event list: a table of six categories with a fallback to "Other". */
module CategoryColors {
  import opened Wrappers

  /** A JavaScript object literal mapping category names to class strings. */
  type ColorTable = seq<(string, string)>

  const OtherCategory := "Other"

  /** `getCategoryColor`'s table in the task card. */
  const BadgeTable: ColorTable := [
    ("Work", "bg-blue-100 text-blue-800"),
    ("Personal", "bg-green-100 text-green-800"),
    ("Study", "bg-indigo-100 text-indigo-800"),
    ("Health", "bg-red-100 text-red-800"),
    ("Home", "bg-yellow-100 text-yellow-800"),
    ("Other", "bg-gray-100 text-gray-800")
  ]

  /** `categoryColors` in the calendar's event list. */
  const EventTable: ColorTable := [
    ("Work", "border-blue-300 bg-blue-50"),
    ("Personal", "border-green-300 bg-green-50"),
    ("Study", "border-indigo-300 bg-indigo-50"),
    ("Health", "border-red-300 bg-red-50"),
    ("Home", "border-yellow-300 bg-yellow-50"),
    ("Other", "border-gray-300 bg-gray-50")
  ]

  predicate HasKey(table: ColorTable, key: string) {
    exists i :: 0 <= i < |table| && table[i].0 == key
  }

  /** Keys are distinct, values are non-empty, and there is an "Other" entry. */
  predicate WellFormed(table: ColorTable) {
    && (forall i, j :: 0 <= i < j < |table| ==> table[i].0 != table[j].0)
    && (forall i :: 0 <= i < |table| ==> table[i].1 != "")
    && HasKey(table, OtherCategory)
  }

  /** The table's own entry for `key`, if it has one. */
  function OwnLookup(table: ColorTable, key: string): (r: Option<string>)
    ensures r.None? <==> !HasKey(table, key)
    ensures r.Some? ==> exists i :: 0 <= i < |table| && table[i].0 == key && table[i].1 == r.value
  {
    if |table| == 0 then None
    else if table[0].0 == key then Some(table[0].1)
    else OwnLookup(table[1..], key)
  }

  /** With distinct keys, the own entry is the value paired with the key. */
  lemma OwnLookupAt(table: ColorTable, i: int)
    requires WellFormed(table) && 0 <= i < |table|
    ensures OwnLookup(table, table[i].0) == Some(table[i].1)
  {
  }

  /** `table[category] || table.Other`, reading only the table's own entries. */
  function ColorOf(table: ColorTable, category: string): (r: string)
    requires WellFormed(table)
    ensures exists i :: 0 <= i < |table| && table[i].1 == r
    ensures forall i :: 0 <= i < |table| && table[i].0 == category ==> r == table[i].1
    ensures !HasKey(table, category) ==> forall i :: 0 <= i < |table| && table[i].0 == OtherCategory ==> r == table[i].1
  {
    match OwnLookup(table, category)
    case Some(v) =>
      assert forall i :: 0 <= i < |table| && table[i].0 == category ==> v == table[i].1;
      v
    case None => OwnLookup(table, OtherCategory).value
  }

  lemma TablesWellFormed()
    ensures WellFormed(BadgeTable)
    ensures WellFormed(EventTable)
  {
    assert BadgeTable[5].0 == OtherCategory;
    assert EventTable[5].0 == OtherCategory;
  }

  /** `getCategoryColor` with own-entry lookup: always one of the six badge
      classes; a listed category gets its entry, any other gets Other's. */
  function BadgeColor(category: string): (r: string)
    ensures exists i :: 0 <= i < 6 && BadgeTable[i].1 == r
    ensures forall i :: 0 <= i < 6 && BadgeTable[i].0 == category ==> r == BadgeTable[i].1
    ensures !HasKey(BadgeTable, category) ==> r == BadgeTable[5].1
  {
    TablesWellFormed();
    ColorOf(BadgeTable, category)
  }

  /** The event colour with own-entry lookup: the same fallback rule over the calendar's table. */
  function EventColor(category: string): (r: string)
    ensures exists i :: 0 <= i < 6 && EventTable[i].1 == r
    ensures forall i :: 0 <= i < 6 && EventTable[i].0 == category ==> r == EventTable[i].1
    ensures !HasKey(EventTable, category) ==> r == EventTable[5].1
  {
    TablesWellFormed();
    ColorOf(EventTable, category)
  }

  /** Every unlisted category, including a differently cased one, looks like "Other". */
  lemma BadgeColorFallback(category: string)
    ensures !HasKey(BadgeTable, category) ==> BadgeColor(category) == BadgeColor(OtherCategory)
    ensures BadgeColor("work") == BadgeColor(OtherCategory)
  {
    assert !HasKey(BadgeTable, "work");
  }

  /** Every category outside the calendar's table is drawn like "Other". */
  lemma EventColorFallback(category: string)
    ensures !HasKey(EventTable, category) ==> EventColor(category) == EventColor(OtherCategory)
    ensures EventColor("work") == EventColor(OtherCategory)
  {
    assert !HasKey(EventTable, "work");
  }

  // ---------------------------------------------------------------------
  // The lookup as the source writes it

  /** What a property read on a plain object literal can produce. */
  datatype JsValue = Str(s: string) | Inherited(name: string) | Undefined

  /** The properties every object literal inherits from `Object.prototype`. */
  const PrototypeMembers: set<string> := {
    "constructor", "hasOwnProperty", "isPrototypeOf", "propertyIsEnumerable",
    "toLocaleString", "toString", "valueOf", "__proto__",
    "__defineGetter__", "__defineSetter__", "__lookupGetter__", "__lookupSetter__"
  }

  /** `table[key]`: an own entry, else an inherited member, else `undefined`. */
  function PropertyRead(table: ColorTable, key: string): JsValue {
    match OwnLookup(table, key)
    case Some(v) => Str(v)
    case None => if key in PrototypeMembers then Inherited(key) else Undefined
  }

  predicate Truthy(v: JsValue) {
    match v
    case Str(s) => s != ""
    case Inherited(_) => true
    case Undefined => false
  }

  /** `table[category] || table.Other`, as JavaScript evaluates it. */
  function ColorAsWritten(table: ColorTable, category: string): (r: JsValue)
    ensures Truthy(PropertyRead(table, category)) ==> r == PropertyRead(table, category)
    ensures !Truthy(PropertyRead(table, category)) ==> r == PropertyRead(table, OtherCategory)
  {
    var v := PropertyRead(table, category);
    if Truthy(v) then v else PropertyRead(table, OtherCategory)
  }

  /** No category of either table is an inherited member name. */
  lemma TableKeysNotInherited()
    ensures forall i :: 0 <= i < |BadgeTable| ==> BadgeTable[i].0 !in PrototypeMembers
    ensures forall i :: 0 <= i < |EventTable| ==> EventTable[i].0 !in PrototypeMembers
  {
    var keys := ["Work", "Personal", "Study", "Health", "Home", "Other"];
    assert forall i :: 0 <= i < |BadgeTable| ==> BadgeTable[i].0 == keys[i];
    assert forall i :: 0 <= i < |EventTable| ==> EventTable[i].0 == keys[i];
    assert "Work" !in PrototypeMembers;
    assert "Personal" !in PrototypeMembers;
    assert "Study" !in PrototypeMembers;
    assert "Health" !in PrototypeMembers;
    assert "Home" !in PrototypeMembers;
    assert "Other" !in PrototypeMembers;
  }

  /** On a table without inherited names as keys, an inherited name reaches
      the inherited member and the fallback is skipped. */
  lemma InheritedEscapes(table: ColorTable, category: string)
    requires forall i :: 0 <= i < |table| ==> table[i].0 !in PrototypeMembers
    requires category in PrototypeMembers
    ensures ColorAsWritten(table, category) == Inherited(category)
  {
    assert !HasKey(table, category);
  }

  /** `getCategoryColor` as the task card runs it: the corrected class away
      from the inherited names, the inherited member itself on them. */
  function BadgeColorAsWritten(category: string): (r: JsValue)
    ensures category !in PrototypeMembers ==> r == Str(BadgeColor(category))
    ensures category in PrototypeMembers ==> r == Inherited(category)
  {
    TablesWellFormed();
    if category !in PrototypeMembers then
      AsWrittenAgreesOffPrototype(BadgeTable, category);
      ColorAsWritten(BadgeTable, category)
    else
      TableKeysNotInherited();
      InheritedEscapes(BadgeTable, category);
      ColorAsWritten(BadgeTable, category)
  }

  /** The calendar's event colour lookup as it runs, with the same split. */
  function EventColorAsWritten(category: string): (r: JsValue)
    ensures category !in PrototypeMembers ==> r == Str(EventColor(category))
    ensures category in PrototypeMembers ==> r == Inherited(category)
  {
    TablesWellFormed();
    if category !in PrototypeMembers then
      AsWrittenAgreesOffPrototype(EventTable, category);
      ColorAsWritten(EventTable, category)
    else
      TableKeysNotInherited();
      InheritedEscapes(EventTable, category);
      ColorAsWritten(EventTable, category)
  }

  /** Away from the inherited member names, the lookup as written is the
      own-entry lookup. */
  lemma AsWrittenAgreesOffPrototype(table: ColorTable, category: string)
    requires WellFormed(table)
    requires category !in PrototypeMembers
    ensures ColorAsWritten(table, category) == Str(ColorOf(table, category))
  {
    var i :| 0 <= i < |table| && table[i].0 == OtherCategory;
    OwnLookupAt(table, i);
    if HasKey(table, category) {
      var j :| 0 <= j < |table| && table[j].0 == category;
      OwnLookupAt(table, j);
    }
  }

  /** A task or event whose category is "toString" gets an inherited function
      instead of a class string: the fallback to "Other" never happens. */
  lemma InheritedNameEscapesFallback()
    ensures BadgeColorAsWritten("toString") == Inherited("toString")
    ensures EventColorAsWritten("toString") == Inherited("toString")
    ensures BadgeColor("toString") == BadgeTable[5].1
  {
    assert !HasKey(BadgeTable, "toString");
    assert !HasKey(EventTable, "toString");
  }
}
