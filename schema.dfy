/** The request schema as the encoder sees it, and its split into multi-label
    (`list[Enum]`) and single-label (`Enum`) fields. */
module Schema {
  import opened Sequences

  /** An enumeration member, identified with its value. */
  type Member = string

  /** The members of an enumeration in definition order, `list(E)`: a member defined with the
      value of an earlier one is an alias and is skipped, so no value occurs twice. */
  type Members = ms: seq<Member> | NoRepeats(ms)

  /** No value occurs twice, stated member by member: each member is absent from the rest. */
  predicate NoRepeats(ms: seq<Member>) {
    ms == [] || (ms[0] !in ms[1..] && NoRepeats(ms[1..]))
  }

  /** The member-by-member statement agrees with `Distinct`. */
  lemma {:induction false} NoRepeatsDistinct(ms: seq<Member>)
    ensures NoRepeats(ms) <==> Distinct(ms)
  {
    if ms != [] {
      var rest := ms[1..];
      NoRepeatsDistinct(rest);
      if NoRepeats(ms) {
        forall i, j | 0 <= i < j < |ms| ensures ms[i] != ms[j] {
          assert ms[j] == rest[j - 1];
          if i > 0 {
            assert ms[i] == rest[i - 1];
          }
        }
      }
      if Distinct(ms) {
        forall a, b | 0 <= a < b < |rest| ensures rest[a] != rest[b] {
          assert rest[a] == ms[a + 1] && rest[b] == ms[b + 1];
        }
      }
    }
  }

  /** A class named by an annotation: an enumeration with its members, or any other class. */
  datatype ClassRef = EnumClass(members: Members) | OtherClass(name: string)

  /** The first argument of a field's annotation: a list type `list[C]` or a class `C`. */
  datatype MainType = ListOf(elem: ClassRef) | Plain(cls: ClassRef)

  /** One declared field of the request model, in declaration order. */
  datatype Field = Field(name: string, mainType: MainType)

  /** A classified field: its name and the full member list of its enumeration. */
  datatype EnumField = EnumField(name: string, members: Members)

  function Names(model: seq<Field>): seq<string> {
    seq(|model|, i requires 0 <= i < |model| => model[i].name)
  }

  /** The multi-label group a field contributes: itself when it is a list of an enumeration. */
  function MultiOf(f: Field): seq<EnumField> {
    if f.mainType.ListOf? && f.mainType.elem.EnumClass? then [EnumField(f.name, f.mainType.elem.members)]
    else []
  }

  /** The single-label group a field contributes: itself when it is an enumeration. */
  function SingleOf(f: Field): seq<EnumField> {
    if f.mainType.Plain? && f.mainType.cls.EnumClass? then [EnumField(f.name, f.mainType.cls.members)]
    else []
  }

  /** The multi-label fields of the model, in declaration order. */
  function MultiLabel(model: seq<Field>): seq<EnumField> {
    if model == [] then [] else MultiOf(model[0]) + MultiLabel(model[1..])
  }

  /** The single-label fields of the model, in declaration order. */
  function SingleLabel(model: seq<Field>): seq<EnumField> {
    if model == [] then [] else SingleOf(model[0]) + SingleLabel(model[1..])
  }

  /** `_get_enum_fields`: one pass over the declared fields filling the two groups. */
  method GetEnumFields(model: seq<Field>) returns (multi: seq<EnumField>, single: seq<EnumField>)
    ensures multi == MultiLabel(model) && single == SingleLabel(model)
  {
    multi, single := [], [];
    var i := 0;
    while i < |model|
      invariant 0 <= i <= |model|
      invariant multi == MultiLabel(model[..i]) && single == SingleLabel(model[..i])
    {
      var f := model[i];
      GroupsStep(model, i);
      if f.mainType.ListOf? {
        var enumType := f.mainType.elem;
        if enumType.EnumClass? {
          multi := multi + [EnumField(f.name, enumType.members)];
        }
      } else if f.mainType.cls.EnumClass? {
        single := single + [EnumField(f.name, f.mainType.cls.members)];
      }
      i := i + 1;
    }
    assert model[..i] == model;
  }

  /** Classifying one more field extends each group by what that field contributes. */
  lemma GroupsStep(model: seq<Field>, i: nat)
    requires i < |model|
    ensures MultiLabel(model[..i + 1]) == MultiLabel(model[..i]) + MultiOf(model[i])
    ensures SingleLabel(model[..i + 1]) == SingleLabel(model[..i]) + SingleOf(model[i])
  {
    GroupsAppend(model[..i], [model[i]]);
    assert model[..i + 1] == model[..i] + [model[i]];
  }

  /** Classifying a concatenation classifies each part. */
  lemma GroupsAppend(a: seq<Field>, b: seq<Field>)
    ensures MultiLabel(a + b) == MultiLabel(a) + MultiLabel(b)
    ensures SingleLabel(a + b) == SingleLabel(a) + SingleLabel(b)
  {
    MultiLabelAppend(a, b);
    SingleLabelAppend(a, b);
  }

  lemma {:induction false} MultiLabelAppend(a: seq<Field>, b: seq<Field>)
    ensures MultiLabel(a + b) == MultiLabel(a) + MultiLabel(b)
  {
    if a == [] {
      assert a + b == b;
    } else {
      MultiLabelAppend(a[1..], b);
      assert (a + b)[1..] == a[1..] + b;
    }
  }

  lemma {:induction false} SingleLabelAppend(a: seq<Field>, b: seq<Field>)
    ensures SingleLabel(a + b) == SingleLabel(a) + SingleLabel(b)
  {
    if a == [] {
      assert a + b == b;
    } else {
      SingleLabelAppend(a[1..], b);
      assert (a + b)[1..] == a[1..] + b;
    }
  }

  /** A field is multi-label with enumeration `ms` exactly when it is declared as a list of
      the enumeration with members `ms`. */
  lemma {:induction false} MultiLabelMembership(model: seq<Field>, name: string, ms: Members)
    ensures EnumField(name, ms) in MultiLabel(model) <==> Field(name, ListOf(EnumClass(ms))) in model
  {
    if model != [] {
      MultiLabelMembership(model[1..], name, ms);
      assert model == [model[0]] + model[1..];
    }
  }

  /** A field is single-label with enumeration `ms` exactly when it is declared as the
      enumeration with members `ms`. */
  lemma {:induction false} SingleLabelMembership(model: seq<Field>, name: string, ms: Members)
    ensures EnumField(name, ms) in SingleLabel(model) <==> Field(name, Plain(EnumClass(ms))) in model
  {
    if model != [] {
      SingleLabelMembership(model[1..], name, ms);
      assert model == [model[0]] + model[1..];
    }
  }

  /** With distinct field names no field is in both groups. */
  lemma GroupsDisjoint(model: seq<Field>)
    requires Distinct(Names(model))
    ensures forall a, b | 0 <= a < |MultiLabel(model)| && 0 <= b < |SingleLabel(model)| ::
              MultiLabel(model)[a].name != SingleLabel(model)[b].name
  {
    var ml, sl := MultiLabel(model), SingleLabel(model);
    forall a, b | 0 <= a < |ml| && 0 <= b < |sl| ensures ml[a].name != sl[b].name {
      MultiLabelMembership(model, ml[a].name, ml[a].members);
      SingleLabelMembership(model, sl[b].name, sl[b].members);
      var p :| 0 <= p < |model| && model[p] == Field(ml[a].name, ListOf(EnumClass(ml[a].members)));
      var q :| 0 <= q < |model| && model[q] == Field(sl[b].name, Plain(EnumClass(sl[b].members)));
      assert p != q;
      assert Names(model)[p] != Names(model)[q];
    }
  }

  /** With distinct field names a field whose type is neither an enumeration nor a list of
      one is in neither group. */
  lemma OtherFieldsDropped(model: seq<Field>, i: nat)
    requires Distinct(Names(model)) && i < |model|
    requires !(model[i].mainType.ListOf? && model[i].mainType.elem.EnumClass?)
    requires !(model[i].mainType.Plain? && model[i].mainType.cls.EnumClass?)
    ensures forall a | 0 <= a < |MultiLabel(model)| :: MultiLabel(model)[a].name != model[i].name
    ensures forall b | 0 <= b < |SingleLabel(model)| :: SingleLabel(model)[b].name != model[i].name
  {
    var ml, sl := MultiLabel(model), SingleLabel(model);
    forall a | 0 <= a < |ml| ensures ml[a].name != model[i].name {
      MultiLabelMembership(model, ml[a].name, ml[a].members);
      var p :| 0 <= p < |model| && model[p] == Field(ml[a].name, ListOf(EnumClass(ml[a].members)));
      assert p != i;
      assert Names(model)[p] != Names(model)[i];
    }
    forall b | 0 <= b < |sl| ensures sl[b].name != model[i].name {
      SingleLabelMembership(model, sl[b].name, sl[b].members);
      var q :| 0 <= q < |model| && model[q] == Field(sl[b].name, Plain(EnumClass(sl[b].members)));
      assert q != i;
      assert Names(model)[q] != Names(model)[i];
    }
  }
}
