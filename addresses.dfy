/**
 * Customer addresses: the one-line text `Address.full_address` shows, and
 * `Address.save`, which keeps at most one default address per user by
 * clearing the flag on the user's other addresses before writing.
 */
module Addresses {
  import opened Wrappers
  import opened Text
  import opened Orm

  datatype Address = Address(
    pk: Option<int>,
    userId: Option<int>,
    addressLabel: string,
    line1: string,
    barangay: string,
    city: string,
    province: string,
    postalCode: string,
    country: string,
    latitude: Option<real>,
    longitude: Option<real>,
    isDefault: bool)

  function AddressPk(a: Address): Option<int> {
    a.pk
  }

  // ---------------------------------------------------------------------------
  // full_address
  // ---------------------------------------------------------------------------

  /** The fields after `line1` that appear only when non-empty, in display order. */
  function OptionalFields(a: Address): seq<string> {
    [a.barangay, a.city, a.province, a.postalCode, a.country]
  }

  /** The non-empty strings of `fields`, in their order. */
  function NonEmpty(fields: seq<string>): (r: seq<string>)
    ensures |r| <= |fields|
    decreases |fields|
  {
    if fields == [] then []
    else (if fields[0] != "" then [fields[0]] else []) + NonEmpty(fields[1..])
  }

  /** `NonEmpty` keeps exactly the non-empty fields: nothing else, and none of them is dropped. */
  lemma {:induction false} NonEmptyMembers(fields: seq<string>)
    ensures forall x :: x in NonEmpty(fields) <==> x != "" && x in fields
    decreases |fields|
  {
    if fields != [] {
      NonEmptyMembers(fields[1..]);
      assert fields == [fields[0]] + fields[1..];
    }
  }

  /** `if field: parts.append(field)` */
  function AppendIfSet(parts: seq<string>, field: string): (r: seq<string>)
    ensures parts <= r && |r| == |parts| + (if field != "" then 1 else 0)
    ensures "" !in r[|parts|..]
  {
    if field != "" then parts + [field] else parts
  }

  /** The `if field: parts.append(field)` steps, one field after the other. */
  function AppendEach(parts: seq<string>, fields: seq<string>): (r: seq<string>)
    ensures parts <= r && |r| <= |parts| + |fields|
    decreases |fields|
  {
    if fields == [] then parts else AppendEach(AppendIfSet(parts, fields[0]), fields[1..])
  }

  /** Appending the fields one by one adds exactly the non-empty ones, in order. */
  lemma {:induction false} AppendEachAddsNonEmpty(parts: seq<string>, fields: seq<string>)
    ensures AppendEach(parts, fields) == parts + NonEmpty(fields)
    decreases |fields|
  {
    if fields != [] {
      var rest := fields[1..];
      AppendEachAddsNonEmpty(AppendIfSet(parts, fields[0]), rest);
      if fields[0] != "" {
        assert (parts + [fields[0]]) + NonEmpty(rest) == parts + ([fields[0]] + NonEmpty(rest));
      } else {
        assert NonEmpty(fields) == NonEmpty(rest);
      }
    } else {
      assert parts + [] == parts;
    }
  }

  /** The list `full_address` builds: `line1`, then barangay, city, province, postal code and country when set. */
  function AddressParts(a: Address): (r: seq<string>)
    ensures 1 <= |r| <= 1 + |OptionalFields(a)| && r[0] == a.line1
  {
    AppendEachAddsNonEmpty([a.line1], OptionalFields(a));
    AppendEach([a.line1], OptionalFields(a))
  }

  /** The appends keep `line1` first and then exactly the non-empty optional fields, in order. */
  lemma AddressPartsAreNonEmptyFields(a: Address)
    ensures AddressParts(a) == [a.line1] + NonEmpty(OptionalFields(a))
  {
    AppendEachAddsNonEmpty([a.line1], OptionalFields(a));
  }

  /** `full_address`: the parts joined by ", ". */
  function FullAddress(a: Address): (r: string)
    ensures a.line1 <= r
    ensures NonEmpty(OptionalFields(a)) == [] ==> r == a.line1
  {
    AddressPartsAreNonEmptyFields(a);
    Join(AddressParts(a), ", ")
  }

  /**
   * When no field holds a comma, splitting the text at ", " gives back
   * `line1` followed by exactly the non-empty optional fields, in order.
   */
  lemma FullAddressFields(a: Address)
    requires ',' !in a.line1
    requires forall f :: f in OptionalFields(a) ==> ',' !in f
    ensures Split(FullAddress(a), ", ") == [a.line1] + NonEmpty(OptionalFields(a))
  {
    var parts := AddressParts(a);
    AddressPartsAreNonEmptyFields(a);
    forall i | 0 <= i < |parts|
      ensures ", "[0] !in parts[i]
    {
      if i > 0 {
        NonEmptyMembers(OptionalFields(a));
        assert parts[i] in NonEmpty(OptionalFields(a));
      }
    }
    SplitJoin(parts, ", ");
  }

  // ---------------------------------------------------------------------------
  // save: one default address per user
  // ---------------------------------------------------------------------------

  /** No user has two default addresses. */
  ghost predicate AtMostOneDefault(rows: seq<Address>) {
    forall i, j :: 0 <= i < j < |rows| && rows[i].isDefault && rows[j].isDefault ==> rows[i].userId != rows[j].userId
  }

  /**
   * `Address.objects.filter(user=user).exclude(pk=pk).update(is_default=False)`:
   * the user's other addresses lose the flag; nothing else changes.
   */
  function ClearOtherDefaults(rows: seq<Address>, user: int, pk: Option<int>): (r: seq<Address>)
    ensures |r| == |rows|
    ensures forall i :: 0 <= i < |rows| && rows[i].userId == Some(user) && rows[i].pk != pk ==>
              r[i] == rows[i].(isDefault := false)
    ensures forall i :: 0 <= i < |rows| && (rows[i].userId != Some(user) || rows[i].pk == pk) ==> r[i] == rows[i]
  {
    seq(|rows|, i requires 0 <= i < |rows| =>
      if rows[i].userId == Some(user) && rows[i].pk != pk then rows[i].(isDefault := false) else rows[i])
  }

  /** The table after the clearing step of `save` (lines 223-224): only for a default address of a user. */
  function ClearedFor(rows: seq<Address>, address: Address): (r: seq<Address>)
    ensures |r| == |rows|
    ensures !address.isDefault ==> r == rows
    ensures forall i :: 0 <= i < |rows| ==>
              r[i] == rows[i] || (rows[i].userId == address.userId && rows[i].pk != address.pk && r[i] == rows[i].(isDefault := false))
  {
    if address.isDefault && address.userId.Some? && address.userId.value != 0 then
      ClearOtherDefaults(rows, address.userId.value, address.pk)
    else rows
  }

  /**
   * Saving keeps at most one default per user; a saved default address is
   * its user's only default afterwards.
   */
  lemma SaveKeepsOneDefault(rows: seq<Address>, address: Address, stored: Address, nextPk: int, nextPk': int)
    requires KeysValid(rows, AddressPk, nextPk) && AtMostOneDefault(rows)
    requires address.isDefault ==> address.userId.Some? && address.userId.value != 0
    requires stored == address.(pk := stored.pk) && stored.pk.Some?
    requires address.pk.Some? ==> stored.pk == address.pk
    requires address.pk.None? ==> stored.pk.value >= nextPk
    requires nextPk <= nextPk' && stored.pk.value < nextPk'
    ensures var after := Upsert(ClearedFor(rows, address), AddressPk, stored);
            && KeysValid(after, AddressPk, nextPk')
            && AtMostOneDefault(after)
            && (address.isDefault ==>
                  forall i :: 0 <= i < |after| && after[i].isDefault && after[i].userId == address.userId ==> after[i] == stored)
  {
    var cleared := ClearedFor(rows, address);
    assert KeysValid(cleared, AddressPk, nextPk);
    UpsertKeepsKeys(cleared, AddressPk, stored, nextPk, nextPk');
    var after := Upsert(cleared, AddressPk, stored);
    if address.isDefault {
      OthersNotDefault(rows, address, stored, cleared, after);
      forall i | 0 <= i < |after| && after[i].isDefault && after[i].userId == address.userId
        ensures after[i] == stored
      {
        var j :| 0 <= j < |after| && after[j] == stored;
        assert after[i].pk == after[j].pk;
      }
    }
    UntouchedDefaultsDistinct(rows, address, stored, cleared, after);
  }

  /** Two rows the save did not write were defaults before it too, so they belong to different users. */
  lemma UntouchedDefaultsDistinct(rows: seq<Address>, address: Address, stored: Address, cleared: seq<Address>, after: seq<Address>)
    requires AtMostOneDefault(rows)
    requires cleared == ClearedFor(rows, address)
    requires forall i :: 0 <= i < |after| && after[i].pk != stored.pk ==> i < |cleared| && after[i] == cleared[i]
    ensures forall i, j ::
              (0 <= i < j < |after| && after[i].isDefault && after[j].isDefault && after[i].pk != stored.pk && after[j].pk != stored.pk)
              ==> after[i].userId != after[j].userId
  {
    forall i, j | 0 <= i < j < |after| && after[i].isDefault && after[j].isDefault && after[i].pk != stored.pk && after[j].pk != stored.pk
      ensures after[i].userId != after[j].userId
    {
      assert rows[i].isDefault && rows[j].isDefault;
    }
  }

  /** After a default address is saved, none of its user's other addresses is a default. */
  lemma OthersNotDefault(rows: seq<Address>, address: Address, stored: Address, cleared: seq<Address>, after: seq<Address>)
    requires address.isDefault && address.userId.Some? && address.userId.value != 0
    requires stored == address.(pk := stored.pk) && stored.pk.Some?
    requires address.pk.Some? ==> stored.pk == address.pk
    requires forall i :: 0 <= i < |rows| ==> rows[i].pk.Some?
    requires cleared == ClearedFor(rows, address) && after == Upsert(cleared, AddressPk, stored)
    requires forall i :: 0 <= i < |after| && after[i].pk != stored.pk ==> i < |cleared| && after[i] == cleared[i]
    ensures forall k :: 0 <= k < |after| && after[k].pk != stored.pk && after[k].userId == address.userId ==> !after[k].isDefault
  {
    forall k | 0 <= k < |after| && after[k].pk != stored.pk && after[k].userId == address.userId
      ensures !after[k].isDefault
    {
      assert after[k] == cleared[k] == rows[k].(isDefault := false);
    }
  }

  /** The address table. */
  class AddressBook {
    var rows: seq<Address>
    var nextPk: int

    ghost predicate Valid()
      reads this
    {
      KeysValid(rows, AddressPk, nextPk)
    }

    constructor ()
      ensures Valid() && rows == []
    {
      rows := [];
      nextPk := 1;
    }

    /**
     * `Address.save`: a default address of a user first clears the flag on
     * the user's other addresses (one bulk update), then the address is
     * written, under a new key when it has none.
     */
    method SaveAddress(address: Address) returns (stored: Address)
      requires Valid()
      modifies this
      ensures Valid()
      ensures stored == if address.pk.Some? then address else address.(pk := Some(old(nextPk)))
      ensures rows == Upsert(ClearedFor(old(rows), address), AddressPk, stored)
      ensures old(nextPk) <= nextPk && stored.pk.Some? && stored.pk.value < nextPk
    {
      if address.isDefault && address.userId.Some? && address.userId.value != 0 {
        rows := ClearOtherDefaults(rows, address.userId.value, address.pk);
      }
      stored := if address.pk.Some? then address else address.(pk := Some(nextPk));
      var next := if nextPk <= stored.pk.value then stored.pk.value + 1 else nextPk;
      UpsertKeepsKeys(rows, AddressPk, stored, nextPk, next);
      rows := Upsert(rows, AddressPk, stored);
      nextPk := next;
    }
  }
}
