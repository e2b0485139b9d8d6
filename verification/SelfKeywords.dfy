/** What the check of a schema asks of each of its fields, said of the verdict itself. */
module SelfKeywords {
  import opened Options
  import opened Schemas
  import opened SelfValidate

  /** The types, with the formats that each of them may have, and items for an array. */
  predicate TypeFits(f: Formats, s: Schema) {
    || s.typ in {"", "boolean", "object"}
    || (s.typ == "number" && (f.disabled || s.format in {"", "float", "double"}))
    || (s.typ == "integer" && (f.disabled || s.format in {"", "int32", "int64"}))
    || (s.typ == "string" &&
          (|| f.disabled || s.format == "" || s.format in f.custom
           || s.format in {"byte", "binary", "date", "date-time", "time", "password", "regex"}
           || s.format in {"email", "idn-email", "hostname", "idn-hostname", "ipv4", "ipv6"}
           || s.format in {"uri", "uri-reference", "iri", "iri-reference", "uri-template"}
           || s.format in {"json-pointer", "relative-json-pointer"}))
    || (s.typ == "array" && s.items.Some?)
  }

  lemma TypeFitsIff(f: Formats, s: Schema)
    ensures TypeDefect(f, s).None? <==> TypeFits(f, s)
  {}

  /** Every child but the oneOf alternatives, of whatever kind, leads to one of `ok`. */
  ghost predicate ChildrenLead(s: Schema, ok: set<Id>) {
    && (forall i | 0 <= i < |s.anyOf| :: Leads(s.anyOf[i], ok))
    && (forall i | 0 <= i < |s.allOf| :: Leads(s.allOf[i], ok))
    && (s.negated.Some? ==> Leads(s.negated.value, ok))
    && (s.items.Some? ==> Leads(s.items.value, ok))
    && (forall k <- s.properties :: Leads(s.properties[k], ok))
    && (s.additionalProperties.Some? ==> Leads(s.additionalProperties.value, ok))
  }

  predicate HasChildren(s: Schema) {
    || s.anyOf != [] || s.allOf != [] || s.negated.Some? || s.items.Some? || s.properties != map[]
    || s.additionalProperties.Some?
  }

  lemma ChildrenLeadIff(s: Schema, ok: set<Id>)
    ensures ChildrenLead(s, ok) <==> forall r | Checks(s, r) :: Leads(r, ok)
  {
    hide Leads;
    if forall r | Checks(s, r) :: Leads(r, ok) {
      forall i | 0 <= i < |s.anyOf| ensures Leads(s.anyOf[i], ok) {
        assert Checks(s, s.anyOf[i]);
      }
      forall i | 0 <= i < |s.allOf| ensures Leads(s.allOf[i], ok) {
        assert Checks(s, s.allOf[i]);
      }
      forall k <- s.properties ensures Leads(s.properties[k], ok) {
        assert Checks(s, s.properties[k]);
      }
      assert s.negated.Some? ==> Checks(s, s.negated.value);
      assert s.items.Some? ==> Checks(s, s.items.value);
      assert s.additionalProperties.Some? ==> Checks(s, s.additionalProperties.value);
    }
  }

  /**
   The check of one schema. It passes if some alternative does and those before it are resolved. Otherwise the type
   has to fit and all other children to pass; and if there are alternatives they have to be resolved, and some other
   child has to be there, whose success is what the error of the last alternative gives way to.
   */
  lemma PassesIff(f: Formats, s: Schema, ok: set<Id>)
    ensures PassesGiven(f, s, ok) <==>
              && !(s.readOnly && s.writeOnly)
              && (|| (exists i :: 0 <= i < |s.oneOf| && Leads(s.oneOf[i], ok) && AllResolved(s.oneOf[..i]))
                  || (&& TypeFits(f, s) && ChildrenLead(s, ok) && AllResolved(s.oneOf)
                      && (s.oneOf == [] || HasChildren(s))))
  {
    hide Checks, TypeDefect, TypeFits, ChildrenLead, HasChildren, Leads;
    TypeFitsIff(f, s);
    ChildrenLeadIff(s, ok);
    WhatIsChecked(s);
    assert HasChildren(s) <==> exists r :: Checks(s, r) by { HasChildrenIs(s); }
    forall i | 0 <= i < |s.oneOf|
      ensures FoundAt(s, ok, i) <==> Leads(s.oneOf[i], ok) && AllResolved(s.oneOf[..i])
    {
      FoundAtIff(s, ok, i);
    }
    assert forall i | 0 <= i < |s.oneOf| :: s.oneOf[i] in s.oneOf;
  }

  ghost predicate AllResolved(rs: seq<SchemaRef>) {
    forall i | 0 <= i < |rs| :: rs[i].value.Some?
  }

  lemma FoundAtIff(s: Schema, ok: set<Id>, i: nat)
    requires i < |s.oneOf|
    ensures FoundAt(s, ok, i) <==> Leads(s.oneOf[i], ok) && AllResolved(s.oneOf[..i])
  {
    assert forall j | 0 <= j < i :: s.oneOf[..i][j] == s.oneOf[j];
  }

  lemma HasChildrenIs(s: Schema)
    ensures HasChildren(s) <==> exists r :: Checks(s, r)
  {
    WhatIsChecked(s);
  }

  /** Every child of the schema, oneOf alternatives included, is resolved. */
  ghost predicate ChildrenAreResolved(s: Schema) {
    && AllResolved(s.oneOf) && AllResolved(s.anyOf) && AllResolved(s.allOf)
    && (s.negated.Some? ==> s.negated.value.value.Some?)
    && (s.items.Some? ==> s.items.value.value.Some?)
    && (forall k <- s.properties :: s.properties[k].value.Some?)
    && (s.additionalProperties.Some? ==> s.additionalProperties.value.value.Some?)
  }

  /** A schema without a defect: not both read-only and write-only, of a fitting type, and with children resolved. */
  lemma WellFormedIff(f: Formats, s: Schema)
    ensures WellFormed(f, s) <==> !(s.readOnly && s.writeOnly) && TypeFits(f, s) && ChildrenAreResolved(s)
  {
    hide TypeDefect, TypeFits;
    TypeFitsIff(f, s);
    assert !HasDefect(f, s, ReadOnlyAndWriteOnly) ==> !(s.readOnly && s.writeOnly);
    if TypeDefect(f, s).Some? {
      assert HasDefect(f, s, TypeDefect(f, s).value);
    }
    ResolvedIff(s);
    if r :| Refers(s, r) && r.value.None? {
      assert HasDefect(f, s, UnresolvedRef(r.ref));
    }
  }

  lemma ResolvedIff(s: Schema)
    ensures ChildrenAreResolved(s) <==> forall r | Refers(s, r) :: r.value.Some?
  {
    if forall r | Refers(s, r) :: r.value.Some? {
      forall i | 0 <= i < |s.oneOf| ensures s.oneOf[i].value.Some? {
        assert Refers(s, s.oneOf[i]);
      }
      forall i | 0 <= i < |s.anyOf| ensures s.anyOf[i].value.Some? {
        assert Refers(s, s.anyOf[i]);
      }
      forall i | 0 <= i < |s.allOf| ensures s.allOf[i].value.Some? {
        assert Refers(s, s.allOf[i]);
      }
      forall k <- s.properties ensures s.properties[k].value.Some? {
        assert Refers(s, s.properties[k]);
      }
      assert s.negated.Some? ==> Refers(s, s.negated.value);
      assert s.items.Some? ==> Refers(s, s.items.value);
      assert s.additionalProperties.Some? ==> Refers(s, s.additionalProperties.value);
    }
  }
}
