/** Values the order-editing component works on: orders, their sections and the
    sub-resources (education entries and the like) those sections hold.
    Every record is an immutable value, so "clone" is a plain value copy. */
module OrderModel {

  datatype Option<T> = None | Some(value: T) {
    function GetOr(default: T): T {
      if Some? then value else default
    }
  }

  /** One property of a resource as its `toArray()` lists it; PHP null is the empty string. */
  datatype Attr = Attr(name: string, value: string)

  /** A sub-resource: its class name, the name of its key property, and its properties in order. */
  datatype Resource = Resource(kind: string, keyName: string, attrs: seq<Attr>)

  /** A property of a nested resource (one level below the order): text, or a collection. */
  datatype MemberValue = MemberText(text: string) | MemberCollection(entries: seq<Resource>)
  datatype Member = Member(name: string, value: MemberValue)

  /** A property of the order: text, a collection of resources, or a nested resource. */
  datatype PropValue = Text(text: string) | Collection(items: seq<Resource>) | Nested(members: seq<Member>)
  datatype Prop = Prop(name: string, value: PropValue)

  /** The order. `confirmedGaps` is `serviceInfo.<service>.confirmedGaps`, keyed by service name. */
  datatype Order = Order(orderId: string, inviteId: string, props: seq<Prop>, confirmedGaps: map<string, bool>)

  // ---------------------------------------------------------------------------
  // Property lookup

  /** `k` is the first index of `attrs` whose name is `name`. */
  predicate FirstAttrAt(attrs: seq<Attr>, name: string, k: int) {
    0 <= k < |attrs| && attrs[k].name == name &&
    forall j :: 0 <= j < k ==> attrs[j].name != name
  }

  /** Reads property `name` of a resource; None when the resource has no such property. */
  function Lookup(attrs: seq<Attr>, name: string): (r: Option<string>)
    ensures r.None? <==> forall i :: 0 <= i < |attrs| ==> attrs[i].name != name
  {
    if attrs == [] then None
    else if attrs[0].name == name then Some(attrs[0].value)
    else
      assert forall i :: 0 <= i < |attrs[1..]| ==> attrs[1..][i] == attrs[i + 1];
      Lookup(attrs[1..], name)
  }

  /** The value read is that of the first property with the name; later duplicates are shadowed. */
  lemma {:induction false} LookupFirst(attrs: seq<Attr>, name: string, k: int)
    requires FirstAttrAt(attrs, name, k)
    ensures Lookup(attrs, name) == Some(attrs[k].value)
  {
    if k > 0 {
      assert FirstAttrAt(attrs[1..], name, k - 1);
      LookupFirst(attrs[1..], name, k - 1);
    }
  }

  /** The value of a resource's key property (`$resource->{$resource->getKeyName()}`). */
  function Key(r: Resource): Option<string> {
    Lookup(r.attrs, r.keyName)
  }

  /** `$resource instanceof $kind && $id === <key of $resource>`. */
  predicate Matches(r: Resource, kind: string, id: string) {
    r.kind == kind && Key(r) == Some(id)
  }

  // ---------------------------------------------------------------------------
  // Sections of an order (`$order->education`)

  /** `k` is the index of the first order property named `name`. */
  predicate FirstPropNamedAt(props: seq<Prop>, name: string, k: int) {
    0 <= k < |props| && props[k].name == name &&
    forall j :: 0 <= j < k ==> props[j].name != name
  }

  function PropIndex(props: seq<Prop>, name: string): (r: Option<nat>)
    ensures r.None? <==> forall i :: 0 <= i < |props| ==> props[i].name != name
    ensures r.Some? ==> FirstPropNamedAt(props, name, r.value)
  {
    if props == [] then None
    else if props[0].name == name then Some(0)
    else match PropIndex(props[1..], name)
      case None => None
      case Some(k) => Some(k + 1)
  }

  /** The entries of the collection property `name`, or None when the order has no such collection. */
  function Section(o: Order, name: string): Option<seq<Resource>> {
    match PropIndex(o.props, name)
    case None => None
    case Some(i) =>
      if o.props[i].value.Collection? then Some(o.props[i].value.items) else None
  }

  /** `$order->{name}->push($r)`: the collection `name` gains `r` as its last entry. */
  function AppendToSection(o: Order, name: string, r: Resource): (o': Order)
    requires Section(o, name).Some?
    ensures Section(o', name) == Some(Section(o, name).value + [r])
    ensures o'.orderId == o.orderId && o'.inviteId == o.inviteId && o'.confirmedGaps == o.confirmedGaps
    ensures |o'.props| == |o.props|
    ensures forall j :: 0 <= j < |o.props| && o.props[j].name != name ==> o'.props[j] == o.props[j]
  {
    var i := PropIndex(o.props, name).value;
    var o' := o.(props := o.props[i := Prop(name, Collection(o.props[i].value.items + [r]))]);
    assert FirstPropNamedAt(o'.props, name, i);
    SameFirstIndex(o'.props, name, i);
    o'
  }

  lemma SameFirstIndex(props: seq<Prop>, name: string, i: nat)
    requires FirstPropNamedAt(props, name, i)
    ensures PropIndex(props, name) == Some(i)
  {
    assert PropIndex(props, name).Some?;
  }

  // ---------------------------------------------------------------------------
  // Education entries

  const EducatorKind := "App\\MSAResources\\Educator"
  const EducatorKey := "educationId"

  /** The editable properties of an education entry, as the entry form binds them. */
  const EducatorFields: seq<string> :=
    ["startDate", "endDate", "schoolName", "branch", "graduated", "degree", "major",
     "minor", "city", "region", "postalCode", "countryCode", "comments"]

  /** `Educator::make()` with identifier `id`: every editable property blank. */
  function DefaultEducator(id: string): (e: Resource)
    ensures e.kind == EducatorKind && Key(e) == Some(id)
    ensures forall i :: 1 <= i < |e.attrs| ==> e.attrs[i].value == ""
  {
    Resource(EducatorKind, EducatorKey,
      [Attr(EducatorKey, id)] + seq(|EducatorFields|, i requires 0 <= i < |EducatorFields| => Attr(EducatorFields[i], "")))
  }

  /** The draft's `educationId` (null reads as ""). */
  function EducationId(e: Resource): string {
    Lookup(e.attrs, EducatorKey).GetOr("")
  }

  // ---------------------------------------------------------------------------
  // Strings

  /** Characters PHP's `trim` strips by default. */
  predicate IsTrimmed(c: char) {
    c == ' ' || c == '\t' || c == '\n' || c == '\r' || c == '\0' || c == '\U{000B}'
  }

  /** `'' === trim(s)`. */
  predicate IsBlank(s: string) {
    forall i :: 0 <= i < |s| ==> IsTrimmed(s[i])
  }

  /** PHP `empty()` on a string: "" and "0" are empty. */
  predicate IsEmptyString(s: string) {
    s == "" || s == "0"
  }

  /** `Str::of(s)->before(c)`: the text before the first `c`, or all of `s`. */
  function Before(s: string, c: char): (r: string)
    ensures r <= s
    ensures c !in r
    ensures r == s || (|r| < |s| && s[|r|] == c)
  {
    if s == [] then []
    else if s[0] == c then []
    else [s[0]] + Before(s[1..], c)
  }

  /** `false !== strpos(s, sub)`. */
  predicate Contains(s: string, sub: string) {
    sub <= s || (s != [] && Contains(s[1..], sub))
  }
}
