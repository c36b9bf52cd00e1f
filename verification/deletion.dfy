/** Removing a sub-resource from an order by class and key: the first matching entry of
    the first collection that holds one, looking at the order's own collections and at
    the collections of its nested resources, one level down. */
module ResourceDeletion {
  import opened OrderModel

  // ---------------------------------------------------------------------------
  // One collection

  predicate CollectionHas(items: seq<Resource>, kind: string, id: string) {
    exists i :: 0 <= i < |items| && Matches(items[i], kind, id)
  }

  /** `k` is the position of the first entry of `items` that matches. */
  predicate FirstMatchAt(items: seq<Resource>, kind: string, id: string, k: int) {
    0 <= k < |items| && Matches(items[k], kind, id) &&
    forall j :: 0 <= j < k ==> !Matches(items[j], kind, id)
  }

  /** The collection without its first matching entry; unchanged when none matches. */
  function RemoveFirst(items: seq<Resource>, kind: string, id: string): (r: seq<Resource>)
    ensures !CollectionHas(items, kind, id) ==> r == items
    ensures forall k :: FirstMatchAt(items, kind, id, k) ==> r == items[..k] + items[k + 1..]
  {
    if items == [] then []
    else if Matches(items[0], kind, id) then items[1..]
    else
      var r := [items[0]] + RemoveFirst(items[1..], kind, id);
      assert forall k :: FirstMatchAt(items, kind, id, k) ==> r == items[..k] + items[k + 1..] by {
        forall k | FirstMatchAt(items, kind, id, k) ensures r == items[..k] + items[k + 1..] {
          forall j | 0 <= j < k - 1 ensures !Matches(items[1..][j], kind, id) {
            assert items[1..][j] == items[j + 1];
          }
          assert FirstMatchAt(items[1..], kind, id, k - 1);
          ConsRemove(items, k);
        }
      }
      assert !CollectionHas(items, kind, id) ==> r == items by {
        if !CollectionHas(items, kind, id) {
          assert !CollectionHas(items[1..], kind, id) by {
            forall i | 0 <= i < |items[1..]| ensures !Matches(items[1..][i], kind, id) {
              assert items[1..][i] == items[i + 1];
            }
          }
          ConsTail(items);
        }
      }
      r
  }

  /** Every collection that holds a match has a first match. */
  lemma {:induction false} FirstMatchExists(items: seq<Resource>, kind: string, id: string)
    requires CollectionHas(items, kind, id)
    ensures exists k :: FirstMatchAt(items, kind, id, k)
  {
    if Matches(items[0], kind, id) {
      assert FirstMatchAt(items, kind, id, 0);
    } else {
      var i :| 0 <= i < |items| && Matches(items[i], kind, id);
      assert Matches(items[1..][i - 1], kind, id);
      FirstMatchExists(items[1..], kind, id);
      var k :| FirstMatchAt(items[1..], kind, id, k);
      assert FirstMatchAt(items, kind, id, k + 1);
    }
  }

  /** Removal takes out exactly one entry when there is a match, and only a matching one. */
  lemma RemoveFirstTakesOne(items: seq<Resource>, kind: string, id: string)
    requires CollectionHas(items, kind, id)
    ensures |RemoveFirst(items, kind, id)| == |items| - 1
    ensures exists k :: 0 <= k < |items| && Matches(items[k], kind, id) &&
                        multiset(RemoveFirst(items, kind, id)) + multiset{items[k]} == multiset(items)
  {
    FirstMatchExists(items, kind, id);
    var k :| FirstMatchAt(items, kind, id, k);
    RemoveAtTakesOne(items, k);
  }

  /** `deleteResourceFromCollection`: walk the collection, forget the first entry of the
      requested class whose key is `id`, and stop. */
  method DeleteFromCollection(items: seq<Resource>, kind: string, id: string)
    returns (rest: seq<Resource>, removed: bool)
    ensures removed == CollectionHas(items, kind, id)
    ensures rest == RemoveFirst(items, kind, id)
  {
    rest, removed := items, false;
    var index := 0;
    while index < |items|
      invariant 0 <= index <= |items|
      invariant forall j :: 0 <= j < index ==> !Matches(items[j], kind, id)
    {
      var resource := items[index];
      if resource.kind == kind {
        if Key(resource) == Some(id) {
          assert FirstMatchAt(items, kind, id, index);
          rest := items[..index] + items[index + 1..];
          removed := true;
          return;
        }
      }
      assert !Matches(items[index], kind, id);
      index := index + 1;
    }
    assert !CollectionHas(items, kind, id);
  }

  // ---------------------------------------------------------------------------
  // The collections of a nested resource

  predicate MemberHas(m: Member, kind: string, id: string) {
    m.value.MemberCollection? && CollectionHas(m.value.entries, kind, id)
  }

  predicate MembersHave(members: seq<Member>, kind: string, id: string) {
    exists i :: 0 <= i < |members| && MemberHas(members[i], kind, id)
  }

  predicate FirstMemberAt(members: seq<Member>, kind: string, id: string, k: int) {
    0 <= k < |members| && MemberHas(members[k], kind, id) &&
    forall j :: 0 <= j < k ==> !MemberHas(members[j], kind, id)
  }

  function RemoveInMember(m: Member, kind: string, id: string): Member {
    if m.value.MemberCollection? then Member(m.name, MemberCollection(RemoveFirst(m.value.entries, kind, id)))
    else m
  }

  /** The members with the first match removed from the first member collection holding one. */
  function RemoveInMembers(members: seq<Member>, kind: string, id: string): (r: seq<Member>)
    ensures !MembersHave(members, kind, id) ==> r == members
    ensures forall k :: FirstMemberAt(members, kind, id, k) ==>
              r == members[k := RemoveInMember(members[k], kind, id)]
  {
    if members == [] then []
    else if MemberHas(members[0], kind, id) then [RemoveInMember(members[0], kind, id)] + members[1..]
    else
      var r := [members[0]] + RemoveInMembers(members[1..], kind, id);
      assert forall k :: FirstMemberAt(members, kind, id, k) ==> r == members[k := RemoveInMember(members[k], kind, id)] by {
        forall k | FirstMemberAt(members, kind, id, k)
          ensures r == members[k := RemoveInMember(members[k], kind, id)]
        {
          forall j | 0 <= j < k - 1 ensures !MemberHas(members[1..][j], kind, id) {
            assert members[1..][j] == members[j + 1];
          }
          assert FirstMemberAt(members[1..], kind, id, k - 1);
          ConsUpdate(members, k, RemoveInMember(members[k], kind, id));
        }
      }
      assert !MembersHave(members, kind, id) ==> r == members by {
        if !MembersHave(members, kind, id) {
          assert !MembersHave(members[1..], kind, id) by {
            forall i | 0 <= i < |members[1..]| ensures !MemberHas(members[1..][i], kind, id) {
              assert members[1..][i] == members[i + 1];
            }
          }
          ConsTail(members);
        }
      }
      r
  }

  /** The inner loop of `deleteResource` over the properties of a nested resource. */
  method DeleteFromMembers(members: seq<Member>, kind: string, id: string)
    returns (rest: seq<Member>, removed: bool)
    ensures removed == MembersHave(members, kind, id)
    ensures rest == RemoveInMembers(members, kind, id)
  {
    rest, removed := members, false;
    var index := 0;
    while index < |members|
      invariant 0 <= index <= |members|
      invariant forall j :: 0 <= j < index ==> !MemberHas(members[j], kind, id)
    {
      var child := members[index];
      if child.value.MemberCollection? {
        var entries, found := DeleteFromCollection(child.value.entries, kind, id);
        if found {
          assert FirstMemberAt(members, kind, id, index);
          rest := members[index := Member(child.name, MemberCollection(entries))];
          removed := true;
          return;
        }
      }
      index := index + 1;
    }
    assert !MembersHave(members, kind, id);
  }

  // ---------------------------------------------------------------------------
  // The whole order

  predicate PropHas(p: Prop, kind: string, id: string) {
    match p.value
    case Collection(items) => CollectionHas(items, kind, id)
    case Nested(members) => MembersHave(members, kind, id)
    case Text(_) => false
  }

  predicate FirstPropAt(props: seq<Prop>, kind: string, id: string, k: int) {
    0 <= k < |props| && PropHas(props[k], kind, id) &&
    forall j :: 0 <= j < k ==> !PropHas(props[j], kind, id)
  }

  /** Does any collection of the order, or of a resource nested in it, hold a match? */
  predicate OrderHas(o: Order, kind: string, id: string) {
    exists i :: 0 <= i < |o.props| && PropHas(o.props[i], kind, id)
  }

  function RemoveInProp(p: Prop, kind: string, id: string): Prop {
    match p.value
    case Collection(items) => Prop(p.name, Collection(RemoveFirst(items, kind, id)))
    case Nested(members) => Prop(p.name, Nested(RemoveInMembers(members, kind, id)))
    case Text(_) => p
  }

  function RemoveInProps(props: seq<Prop>, kind: string, id: string): (r: seq<Prop>)
    ensures (forall i :: 0 <= i < |props| ==> !PropHas(props[i], kind, id)) ==> r == props
    ensures forall k :: FirstPropAt(props, kind, id, k) ==> r == props[k := RemoveInProp(props[k], kind, id)]
  {
    if props == [] then []
    else if PropHas(props[0], kind, id) then [RemoveInProp(props[0], kind, id)] + props[1..]
    else
      var r := [props[0]] + RemoveInProps(props[1..], kind, id);
      assert forall k :: FirstPropAt(props, kind, id, k) ==> r == props[k := RemoveInProp(props[k], kind, id)] by {
        forall k | FirstPropAt(props, kind, id, k)
          ensures r == props[k := RemoveInProp(props[k], kind, id)]
        {
          forall j | 0 <= j < k - 1 ensures !PropHas(props[1..][j], kind, id) {
            assert props[1..][j] == props[j + 1];
          }
          assert FirstPropAt(props[1..], kind, id, k - 1);
          ConsUpdate(props, k, RemoveInProp(props[k], kind, id));
        }
      }
      assert (forall i :: 0 <= i < |props| ==> !PropHas(props[i], kind, id)) ==> r == props by {
        if forall i :: 0 <= i < |props| ==> !PropHas(props[i], kind, id) {
          forall i | 0 <= i < |props[1..]| ensures !PropHas(props[1..][i], kind, id) {
            assert props[1..][i] == props[i + 1];
          }
          ConsTail(props);
        }
      }
      r
  }

  /** The order after `deleteResource` has found and forgotten its target (before saving). */
  function RemoveFromOrder(o: Order, kind: string, id: string): (o': Order)
    ensures !OrderHas(o, kind, id) ==> o' == o
    ensures o'.orderId == o.orderId && o'.inviteId == o.inviteId && o'.confirmedGaps == o.confirmedGaps
  {
    o.(props := RemoveInProps(o.props, kind, id))
  }

  /** One step of the outer loop of `deleteResource`: a collection is searched directly,
      a nested resource one level down, anything else is skipped. */
  method DeleteFromProp(prop: Prop, kind: string, id: string) returns (p': Prop, removed: bool)
    ensures removed == PropHas(prop, kind, id)
    ensures p' == RemoveInProp(prop, kind, id)
  {
    match prop.value {
      case Collection(items) =>
        var rest;
        rest, removed := DeleteFromCollection(items, kind, id);
        p' := Prop(prop.name, Collection(rest));
      case Nested(members) =>
        var rest;
        rest, removed := DeleteFromMembers(members, kind, id);
        p' := Prop(prop.name, Nested(rest));
      case Text(_) =>
        p', removed := prop, false;
    }
  }

  /** The outer loop of `deleteResource`: the order's properties in turn, stopping at the
      first one from which an entry was removed. */
  method DeleteFromOrder(o: Order, kind: string, id: string) returns (o': Order, removed: bool)
    ensures removed == OrderHas(o, kind, id)
    ensures o' == RemoveFromOrder(o, kind, id)
  {
    o', removed := o, false;
    var index := 0;
    while index < |o.props|
      invariant 0 <= index <= |o.props|
      invariant forall j :: 0 <= j < index ==> !PropHas(o.props[j], kind, id)
    {
      var p', found := DeleteFromProp(o.props[index], kind, id);
      if found {
        assert FirstPropAt(o.props, kind, id, index);
        o' := o.(props := o.props[index := p']);
        removed := true;
        return;
      }
      index := index + 1;
    }
    assert !OrderHas(o, kind, id);
  }

  /** Appending an entry whose key is new and then deleting by that key gives back the
      order as it was (before any sorting, and for a key the order did not hold already). */
  lemma {:induction false} AppendThenDelete(o: Order, name: string, e: Resource, kind: string, id: string)
    requires Section(o, name).Some?
    requires !OrderHas(o, kind, id)
    requires Matches(e, kind, id)
    ensures OrderHas(AppendToSection(o, name, e), kind, id)
    ensures RemoveFromOrder(AppendToSection(o, name, e), kind, id) == o
  {
    var i := PropIndex(o.props, name).value;
    var items := Section(o, name).value;
    var o' := AppendToSection(o, name, e);
    assert o.props[i] == Prop(name, Collection(items));
    assert FirstPropNamedAt(o'.props, name, i);
    SameFirstIndex(o'.props, name, i);
    assert o'.props[i] == Prop(name, Collection(items + [e]));
    assert FirstMatchAt(items + [e], kind, id, |items|) by {
      forall j | 0 <= j < |items| ensures !Matches((items + [e])[j], kind, id) {
        assert !PropHas(o.props[i], kind, id);
        assert (items + [e])[j] == items[j];
      }
    }
    assert RemoveFirst(items + [e], kind, id) == items;
    assert FirstPropAt(o'.props, kind, id, i);
    assert o'.props[i := RemoveInProp(o'.props[i], kind, id)] == o.props;
  }

  // ---------------------------------------------------------------------------
  // Sequence facts the proofs above rely on

  lemma ConsTail<T>(s: seq<T>)
    requires s != []
    ensures [s[0]] + s[1..] == s
  {
  }

  lemma ConsRemove<T>(s: seq<T>, k: int)
    requires 0 < k < |s|
    ensures [s[0]] + (s[1..][..k - 1] + s[1..][k..]) == s[..k] + s[k + 1..]
  {
    assert s[1..][..k - 1] == s[1..k];
    assert s[1..][k..] == s[k + 1..];
  }

  lemma ConsUpdate<T>(s: seq<T>, k: int, v: T)
    requires 0 < k < |s|
    ensures [s[0]] + s[1..][k - 1 := v] == s[k := v]
  {
  }

  /** Removing position `k` takes out `s[k]` and nothing else. */
  lemma RemoveAtTakesOne<T>(s: seq<T>, k: int)
    requires 0 <= k < |s|
    ensures multiset(s[..k] + s[k + 1..]) + multiset{s[k]} == multiset(s)
  {
    assert s == s[..k] + [s[k]] + s[k + 1..];
  }
}
