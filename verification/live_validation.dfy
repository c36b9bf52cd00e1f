/** The attribute list of live validation on the new-entry form: every property of the
    draft whose trimmed value is non-empty, in order, then the edited field when it is not
    among them already. */
module LiveValidation {
  import opened OrderModel

  /** Names of the properties whose trimmed value is not empty, in order. */
  function NonBlankNames(attrs: seq<Attr>): (names: seq<string>)
    ensures |names| <= |attrs|
    ensures forall n :: n in names <==> exists i :: 0 <= i < |attrs| && attrs[i].name == n && !IsBlank(attrs[i].value)
  {
    if attrs == [] then []
    else
      var rest := NonBlankNames(attrs[1..]);
      assert forall i :: 1 <= i < |attrs| ==> attrs[i] == attrs[1..][i - 1];
      if IsBlank(attrs[0].value) then rest else [attrs[0].name] + rest
  }

  predicate DistinctNames(attrs: seq<Attr>) {
    forall i, j :: 0 <= i < j < |attrs| ==> attrs[i].name != attrs[j].name
  }

  predicate Distinct(names: seq<string>) {
    forall i, j :: 0 <= i < j < |names| ==> names[i] != names[j]
  }

  /** Properties with distinct names give a list without repeats. */
  lemma {:induction false} NonBlankNamesDistinct(attrs: seq<Attr>)
    requires DistinctNames(attrs)
    ensures Distinct(NonBlankNames(attrs))
  {
    if attrs != [] {
      NonBlankNamesDistinct(attrs[1..]);
      var rest := NonBlankNames(attrs[1..]);
      if !IsBlank(attrs[0].value) {
        assert forall i :: 0 <= i < |attrs[1..]| ==> attrs[1..][i].name != attrs[0].name by {
          forall i | 0 <= i < |attrs[1..]| ensures attrs[1..][i].name != attrs[0].name {
            assert attrs[1..][i] == attrs[i + 1];
          }
        }
        assert attrs[0].name !in rest;
      }
    }
  }

  /** The list `updatedNewEducator` hands to `validateOnly`. */
  function LiveAttributeList(draft: Resource, name: string): seq<string> {
    var names := NonBlankNames(draft.attrs);
    if name in names then names else names + [name]
  }

  /** Builds the attribute list as `updatedNewEducator` does: filter, then append the edited field. */
  method LiveAttributes(draft: Resource, name: string) returns (attributes: seq<string>)
    ensures attributes == LiveAttributeList(draft, name)
    ensures name in attributes
    ensures forall n :: n in attributes <==>
              n == name || exists i :: 0 <= i < |draft.attrs| && draft.attrs[i].name == n && !IsBlank(draft.attrs[i].value)
    ensures DistinctNames(draft.attrs) ==> Distinct(attributes)
  {
    attributes := [];
    var i := 0;
    while i < |draft.attrs|
      invariant 0 <= i <= |draft.attrs|
      invariant attributes == NonBlankNames(draft.attrs[..i])
    {
      NonBlankNamesSnoc(draft.attrs[..i], draft.attrs[i]);
      assert draft.attrs[..i + 1] == draft.attrs[..i] + [draft.attrs[i]];
      if !IsBlank(draft.attrs[i].value) {
        attributes := attributes + [draft.attrs[i].name];
      }
      i := i + 1;
    }
    assert draft.attrs[..i] == draft.attrs;
    if name !in attributes {
      attributes := attributes + [name];
    }
    if DistinctNames(draft.attrs) {
      NonBlankNamesDistinct(draft.attrs);
    }
  }

  /** Filtering one more property extends the list by that property's name when it is not blank. */
  lemma {:induction false} NonBlankNamesSnoc(attrs: seq<Attr>, a: Attr)
    ensures NonBlankNames(attrs + [a]) == NonBlankNames(attrs) + (if IsBlank(a.value) then [] else [a.name])
  {
    if attrs == [] {
      assert [a][1..] == [];
    } else {
      assert (attrs + [a])[1..] == attrs[1..] + [a];
      NonBlankNamesSnoc(attrs[1..], a);
    }
  }
}
