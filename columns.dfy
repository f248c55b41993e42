/** The fixed output columns of the encoder (`_get_all_columns`) and the position of every
    (field, member) pair among them. */
module Columns {
  import opened Schema

  /** One output position: a field, a member of its enumeration, and whether the field is
      multi-label. */
  datatype Slot = Slot(field: string, member: Member, multi: bool)

  /** `f"{field}_{value}"`. */
  function ColumnName(field: string, m: Member): string {
    field + "_" + m
  }

  /** The columns of one group: every field in order, every member in enumeration order. */
  function GroupColumns(fs: seq<EnumField>): seq<string> {
    if fs == [] then []
    else
      seq(|fs[0].members|, j requires 0 <= j < |fs[0].members| => ColumnName(fs[0].name, fs[0].members[j]))
      + GroupColumns(fs[1..])
  }

  /** `_get_all_columns`: the multi-label columns followed by the single-label columns. */
  function AllColumns(multi: seq<EnumField>, single: seq<EnumField>): seq<string> {
    GroupColumns(multi) + GroupColumns(single)
  }

  /** The total size of the enumerations of a group. */
  function MemberCount(fs: seq<EnumField>): nat {
    if fs == [] then 0 else |fs[0].members| + MemberCount(fs[1..])
  }

  function FieldSlots(f: EnumField, multi: bool): seq<Slot> {
    seq(|f.members|, j requires 0 <= j < |f.members| => Slot(f.name, f.members[j], multi))
  }

  function GroupSlots(fs: seq<EnumField>, multi: bool): seq<Slot> {
    if fs == [] then [] else FieldSlots(fs[0], multi) + GroupSlots(fs[1..], multi)
  }

  /** The (field, member) pair behind each output position. */
  function Layout(multi: seq<EnumField>, single: seq<EnumField>): seq<Slot> {
    GroupSlots(multi, true) + GroupSlots(single, false)
  }

  /** The keys the encoder writes into a row before relabelling: the enumeration member
      alone, for both groups. */
  function BareKeys(multi: seq<EnumField>, single: seq<EnumField>): seq<string> {
    var layout := Layout(multi, single);
    seq(|layout|, k requires 0 <= k < |layout| => layout[k].member)
  }

  /** A group has one slot per member of each of its fields. */
  lemma {:induction false} GroupSlotsLength(fs: seq<EnumField>, multi: bool)
    ensures |GroupSlots(fs, multi)| == MemberCount(fs)
  {
    if fs != [] {
      GroupSlotsLength(fs[1..], multi);
    }
  }

  /** A group has one column per member of each of its fields. */
  lemma {:induction false} GroupColumnsLength(fs: seq<EnumField>)
    ensures |GroupColumns(fs)| == MemberCount(fs)
  {
    if fs != [] {
      GroupColumnsLength(fs[1..]);
    }
  }

  /** A group has one column per (field, member) pair, named after that pair. */
  lemma {:induction false} GroupColumnsLayout(fs: seq<EnumField>, multi: bool)
    ensures |GroupColumns(fs)| == |GroupSlots(fs, multi)| == MemberCount(fs)
    ensures forall k | 0 <= k < |GroupSlots(fs, multi)| ::
              GroupSlots(fs, multi)[k].multi == multi &&
              GroupColumns(fs)[k] == ColumnName(GroupSlots(fs, multi)[k].field, GroupSlots(fs, multi)[k].member)
  {
    if fs != [] {
      GroupColumnsLayout(fs[1..], multi);
      var n := |fs[0].members|;
      forall k | 0 <= k < |GroupSlots(fs, multi)|
        ensures GroupSlots(fs, multi)[k].multi == multi
        ensures GroupColumns(fs)[k] == ColumnName(GroupSlots(fs, multi)[k].field, GroupSlots(fs, multi)[k].member)
      {
        if k >= n {
          assert GroupSlots(fs, multi)[k] == GroupSlots(fs[1..], multi)[k - n];
          assert GroupColumns(fs)[k] == GroupColumns(fs[1..])[k - n];
        }
      }
    }
  }

  /** The column list has one name per (field, member) pair, multi-label pairs first, and the
      name at each position is `field_member` of the pair at that position; so its length is the
      total size of the enumerations of both groups. */
  lemma AllColumnsLayout(multi: seq<EnumField>, single: seq<EnumField>)
    ensures |AllColumns(multi, single)| == |Layout(multi, single)| == MemberCount(multi) + MemberCount(single)
    ensures forall k | 0 <= k < |Layout(multi, single)| ::
              AllColumns(multi, single)[k] == ColumnName(Layout(multi, single)[k].field, Layout(multi, single)[k].member)
    ensures forall k | 0 <= k < |Layout(multi, single)| :: Layout(multi, single)[k].multi <==> k < MemberCount(multi)
  {
    GroupColumnsLayout(multi, true);
    GroupColumnsLayout(single, false);
    var m := MemberCount(multi);
    forall k | m <= k < |Layout(multi, single)|
      ensures AllColumns(multi, single)[k] == ColumnName(Layout(multi, single)[k].field, Layout(multi, single)[k].member)
      ensures !Layout(multi, single)[k].multi
    {
      assert Layout(multi, single)[k] == GroupSlots(single, false)[k - m];
      assert AllColumns(multi, single)[k] == GroupColumns(single)[k - m];
    }
  }

  /** Member `j` of field `i` of a group sits at the group's position
      `MemberCount(fs[..i]) + j`: fields in declaration order, members in enumeration order. */
  lemma {:induction false} SlotPosition(fs: seq<EnumField>, multi: bool, i: nat, j: nat)
    requires i < |fs| && j < |fs[i].members|
    ensures MemberCount(fs[..i]) + j < |GroupSlots(fs, multi)|
    ensures GroupSlots(fs, multi)[MemberCount(fs[..i]) + j] == Slot(fs[i].name, fs[i].members[j], multi)
    decreases i
  {
    if i == 0 {
      assert fs[..0] == [];
    } else {
      SlotPosition(fs[1..], multi, i - 1, j);
      assert fs[..i][1..] == fs[1..][..i - 1];
      assert fs[..i] != [] && fs[..i][0] == fs[0];
    }
  }

  /** The members of field `i` fit between its offset and the end of the group. */
  lemma {:induction false} FieldOffset(fs: seq<EnumField>, i: nat)
    requires i < |fs|
    ensures MemberCount(fs[..i]) + |fs[i].members| <= MemberCount(fs)
    decreases i
  {
    if i == 0 {
      assert fs[..0] == [];
    } else {
      FieldOffset(fs[1..], i - 1);
      assert fs[..i][1..] == fs[1..][..i - 1];
      assert fs[..i] != [] && fs[..i][0] == fs[0];
    }
  }
}
