/**
 * The closed table of field kinds a form builder offers, with the category,
 * capability flags and WhatsApp rendering of each kind.
 */
module FieldTypes {
  import opened Wrappers

  datatype Kind = Text | Email | Phone | Number | Textarea | Date | Select | Multiselect | Rating | File | Url

  datatype Category = Input | Selection | Media | RatingCategory

  function CategoryName(c: Category): string {
    match c
    case Input => "input"
    case Selection => "selection"
    case Media => "media"
    case RatingCategory => "rating"
  }

  datatype FieldTypeConfig = FieldTypeConfig(
    id: string,
    name: string,
    category: Category,
    supportsOptions: bool,
    supportsValidation: bool,
    supportsConditional: bool,
    whatsappType: string)

  /** The table key of a kind. */
  function KindId(k: Kind): string {
    match k
    case Text => "text"
    case Email => "email"
    case Phone => "phone"
    case Number => "number"
    case Textarea => "textarea"
    case Date => "date"
    case Select => "select"
    case Multiselect => "multiselect"
    case Rating => "rating"
    case File => "file"
    case Url => "url"
  }

  /** The table entry stored under a kind's key. */
  function Config(k: Kind): FieldTypeConfig {
    match k
    case Text => FieldTypeConfig("text", "Short Text", Input, false, true, true, "text")
    case Email => FieldTypeConfig("email", "Email", Input, false, true, true, "text")
    case Phone => FieldTypeConfig("phone", "Phone", Input, false, true, true, "text")
    case Number => FieldTypeConfig("number", "Number", Input, false, true, true, "text")
    case Textarea => FieldTypeConfig("textarea", "Long Text", Input, false, true, true, "text")
    case Date => FieldTypeConfig("date", "Date", Input, false, true, true, "text")
    case Select => FieldTypeConfig("select", "Single Select", Selection, true, true, true, "buttons")
    case Multiselect => FieldTypeConfig("multiselect", "Multi Select", Selection, true, true, true, "list")
    case Rating => FieldTypeConfig("rating", "Rating", RatingCategory, false, false, true, "text")
    case File => FieldTypeConfig("file", "File Upload", Media, false, true, true, "document")
    case Url => FieldTypeConfig("url", "URL", Input, false, true, true, "text")
  }

  /** The kinds in the table's declaration order. */
  const AllKinds: seq<Kind> := [Text, Email, Phone, Number, Textarea, Date, Select, Multiselect, Rating, File, Url]

  /** Position of a kind in the declaration order. */
  function KindIndex(k: Kind): (i: nat)
    ensures i < |AllKinds| && AllKinds[i] == k
  {
    match k
    case Text => 0
    case Email => 1
    case Phone => 2
    case Number => 3
    case Textarea => 4
    case Date => 5
    case Select => 6
    case Multiselect => 7
    case Rating => 8
    case File => 9
    case Url => 10
  }

  /** The kind whose key is `typeId`, if any. */
  function KindOf(typeId: string): (r: Option<Kind>)
    ensures r.Some? ==> KindId(r.value) == typeId
    ensures r.None? ==> forall k :: KindId(k) != typeId
  {
    if typeId == "text" then Some(Text)
    else if typeId == "email" then Some(Email)
    else if typeId == "phone" then Some(Phone)
    else if typeId == "number" then Some(Number)
    else if typeId == "textarea" then Some(Textarea)
    else if typeId == "date" then Some(Date)
    else if typeId == "select" then Some(Select)
    else if typeId == "multiselect" then Some(Multiselect)
    else if typeId == "rating" then Some(Rating)
    else if typeId == "file" then Some(File)
    else if typeId == "url" then Some(Url)
    else None
  }

  /** `getFieldType`: the entry under `typeId`, or undefined. */
  function GetFieldType(typeId: string): (r: Option<FieldTypeConfig>)
    ensures r.Some? <==> exists k :: KindId(k) == typeId
    ensures r.Some? ==> r.value.id == typeId
    ensures r.Some? ==> KindOf(typeId).Some? && r.value == Config(KindOf(typeId).value) && r.value in GetAllFields()
  {
    match KindOf(typeId)
    case None => None
    case Some(k) =>
      TableIdIsKey(k);
      assert GetAllFields()[KindIndex(k)] == Config(k);
      Some(Config(k))
  }

  /** `getAllFields`: every entry, in declaration order. */
  function GetAllFields(): (r: seq<FieldTypeConfig>)
    ensures |r| == |AllKinds|
    ensures forall i :: 0 <= i < |r| ==> r[i] == Config(AllKinds[i])
  {
    seq(|AllKinds|, i requires 0 <= i < |AllKinds| => Config(AllKinds[i]))
  }

  /** Entries of `s` whose category is `c`, in order. */
  function FilterCategory(s: seq<FieldTypeConfig>, c: Category): (r: seq<FieldTypeConfig>)
    ensures forall e :: e in r <==> e in s && e.category == c
    ensures |r| <= |s|
  {
    if |s| == 0 then []
    else
      var rest := FilterCategory(s[1..], c);
      assert forall e :: e in s <==> e == s[0] || e in s[1..];
      if s[0].category == c then [s[0]] + rest else rest
  }

  /** `getFieldsByCategory`. */
  function GetFieldsByCategory(c: Category): (r: seq<FieldTypeConfig>)
    ensures forall e :: e in r <==> e in GetAllFields() && e.category == c
  {
    FilterCategory(GetAllFields(), c)
  }

  /** Filtering distributes over concatenation, so it keeps the entries in their order. */
  lemma {:induction false} FilterCategoryAppend(a: seq<FieldTypeConfig>, b: seq<FieldTypeConfig>, c: Category)
    ensures FilterCategory(a + b, c) == FilterCategory(a, c) + FilterCategory(b, c)
  {
    if |a| == 0 {
      assert a + b == b;
    } else {
      assert (a + b)[1..] == a[1..] + b;
      FilterCategoryAppend(a[1..], b, c);
    }
  }

  /** One entry is kept exactly when it is of the category. */
  lemma FilterCategoryOne(e: FieldTypeConfig, c: Category)
    ensures FilterCategory([e], c) == if e.category == c then [e] else []
  {
    assert [e][1..] == [];
  }

  /** A category listing takes the entries before any table position ahead of those after it. */
  lemma CategoryListingOrder(c: Category, i: nat)
    requires i <= |GetAllFields()|
    ensures GetFieldsByCategory(c) == FilterCategory(GetAllFields()[..i], c) + FilterCategory(GetAllFields()[i..], c)
  {
    var all := GetAllFields();
    assert all == all[..i] + all[i..];
    FilterCategoryAppend(all[..i], all[i..], c);
  }

  /** Every entry's `id` equals the key it is stored under, and the table has 11 distinct keys. */
  lemma TableIdIsKey(k: Kind)
    ensures Config(k).id == KindId(k)
    ensures |AllKinds| == 11 && k in AllKinds
    ensures forall j :: KindId(j) == KindId(k) ==> j == k
  {
    assert AllKinds[KindIndex(k)] == k;
  }

  /** Only the two selection kinds take options. */
  lemma SupportsOptionsExactly(k: Kind)
    ensures Config(k).supportsOptions <==> (k == Select || k == Multiselect)
    ensures Config(k).supportsOptions <==> Config(k).category == Selection
  {
  }

  /** WhatsApp rendering: buttons for select, list for multiselect, document for file, text otherwise. */
  lemma WhatsappTypeByKind(k: Kind)
    ensures Config(k).whatsappType ==
      (if k == Select then "buttons" else if k == Multiselect then "list" else if k == File then "document" else "text")
    ensures !Config(k).supportsValidation <==> k == Rating
  {
  }

  /** Every entry of a category listing is the configuration of some kind of that category. */
  lemma CategoryListing(c: Category, k: Kind)
    ensures Config(k) in GetFieldsByCategory(c) <==> Config(k).category == c
  {
    var i := KindIndex(k);
    assert GetAllFields()[i] == Config(k);
  }
}
