/**
 The default delivery address of an account
 (internal/server/handlers/address.go:119-168, 172-208, 212-293).

 The address table is a sequence of rows with distinct IDs. Each handler loads rows,
 assigns their fields and writes whole rows back; each write may fail.
 */
module DefaultAddress {
  import opened Wrappers

  /** status marks the default; details stands for the fields the edit form can change. */
  datatype Address = Address(id: int, accountID: int, status: bool, details: string)

  type Table = seq<Address>

  ghost predicate DistinctIds(t: Table) {
    forall i, j :: 0 <= i < j < |t| ==> t[i].id != t[j].id
  }

  /** Where the row with this ID is, or the length of the table if there is none. */
  function Find(t: Table, id: int): (i: nat)
    ensures i <= |t| && (i < |t| ==> t[i].id == id)
    ensures forall j :: 0 <= j < i ==> t[j].id != id
  {
    if t == [] then 0 else if t[0].id == id then 0 else 1 + Find(t[1..], id)
  }

  /** Whether a row is the default of an account. */
  predicate IsDefault(a: Address, account: int) {
    a.accountID == account && a.status
  }

  function Defaults(t: Table, account: int): nat {
    if t == [] then 0 else (if IsDefault(t[0], account) then 1 else 0) + Defaults(t[1..], account)
  }

  /** AddressFill: the first default. */
  function Fill(t: Table, account: int): Option<Address> {
    if t == [] then None else if IsDefault(t[0], account) then Some(t[0]) else Fill(t[1..], account)
  }

  ghost predicate HasDefault(t: Table, account: int) {
    exists i :: 0 <= i < |t| && IsDefault(t[i], account)
  }

  // ---------------------------------------------------------------- the handlers

  /** HTTP status codes of the responses. */
  type Code = int

  function WithStatus(t: Table, i: nat, status: bool): Table
    requires i < |t|
  {
    t[i := t[i].(status := status)]
  }

  /** The table and the response after AddressQuickChange; first and second say which write fails. */
  function QuickChanged(t: Table, account: int, addressID: int, toBeDisabled: int, first: bool, second: bool): (Table, Code) {
    var i, j := Find(t, addressID), Find(t, toBeDisabled);
    if account == 0 || addressID == 0 || toBeDisabled == 0 || addressID == toBeDisabled then (t, 400)
    else if i == |t| || j == |t| then (t, 404)
    else if t[i].accountID != account || t[j].accountID != account then (t, 403)
    else if first then (t, 500)
    else if second then (WithStatus(t, i, true), 500)
    else (WithStatus(WithStatus(t, i, true), j, false), 200)
  }

  class AddressTable {
    var rows: Table

    constructor (rows: Table)
      ensures this.rows == rows
    {
      this.rows := rows;
    }

    /** UPDATE address SET ... WHERE addressID = a.id */
    method Write(a: Address)
      requires Find(rows, a.id) < |rows|
      modifies this
      ensures rows == old(rows)[Find(old(rows), a.id) := a]
    {
      rows := rows[Find(rows, a.id) := a];
    }

    method QuickChange(account: int, addressID: int, toBeDisabled: int, firstFails: bool, secondFails: bool)
      returns (code: Code)
      requires DistinctIds(rows)
      modifies this
      ensures (rows, code) == QuickChanged(old(rows), account, addressID, toBeDisabled, firstFails, secondFails)
      ensures DistinctIds(rows)
    {
      if account == 0 || addressID == 0 || toBeDisabled == 0 {
        return 400;
      }
      if addressID == toBeDisabled {
        return 400;
      }
      var i := Find(rows, addressID);
      if i == |rows| {
        return 404;
      }
      var toBeUpdated := rows[i];
      var j := Find(rows, toBeDisabled);
      if j == |rows| {
        return 404;
      }
      var disableThis := rows[j];
      if toBeUpdated.accountID != account || disableThis.accountID != account {
        return 403;
      }
      toBeUpdated := toBeUpdated.(status := true);
      disableThis := disableThis.(status := false);
      if firstFails {
        return 500;
      }
      Write(toBeUpdated);
      if secondFails {
        return 500;
      }
      FindIsIndex(rows, j);
      Write(disableThis);
      return 200;
    }

    method Update(account: int, addressID: int, status: bool, details: string, fails: bool) returns (code: Code)
      modifies this
      ensures (rows, code) == Edited(old(rows), account, addressID, status, details, fails)
    {
      if account == 0 || addressID == 0 {
        return 400;
      }
      var i := Find(rows, addressID);
      if i == |rows| {
        return 404;
      }
      var toBeUpdated := rows[i];
      if toBeUpdated.accountID != account {
        return 403;
      }
      toBeUpdated := toBeUpdated.(details := details);
      toBeUpdated := toBeUpdated.(status := status);
      if fails {
        return 500;
      }
      Write(toBeUpdated);
      return 200;
    }

    method Delete(account: int, addressID: int, fails: bool) returns (code: Code)
      modifies this
      ensures (rows, code) == Deleted(old(rows), account, addressID, fails)
    {
      if account == 0 || addressID == 0 {
        return 400;
      }
      var i := Find(rows, addressID);
      if i == |rows| {
        return 404;
      }
      if rows[i].accountID != account {
        return 403;
      }
      if fails {
        return 500;
      }
      rows := rows[..i] + rows[i + 1..];
      return 200;
    }
  }

  function Edited(t: Table, account: int, addressID: int, status: bool, details: string, fails: bool): (Table, Code) {
    var i := Find(t, addressID);
    if account == 0 || addressID == 0 then (t, 400)
    else if i == |t| then (t, 404)
    else if t[i].accountID != account then (t, 403)
    else if fails then (t, 500)
    else (t[i := t[i].(status := status, details := details)], 200)
  }

  function Deleted(t: Table, account: int, addressID: int, fails: bool): (Table, Code) {
    var i := Find(t, addressID);
    if account == 0 || addressID == 0 then (t, 400)
    else if i == |t| then (t, 404)
    else if t[i].accountID != account then (t, 403)
    else if fails then (t, 500)
    else (t[..i] + t[i + 1..], 200)
  }

  lemma FindIsIndex(t: Table, i: nat)
    requires DistinctIds(t) && i < |t|
    ensures Find(t, t[i].id) == i
  {
  }

  // ---------------------------------------------------------------- counting defaults

  lemma {:induction false} DefaultsAfterWrite(t: Table, i: nat, a: Address, account: int)
    requires i < |t|
    ensures Defaults(t[i := a], account) ==
            Defaults(t, account) - (if IsDefault(t[i], account) then 1 else 0) + (if IsDefault(a, account) then 1 else 0)
  {
    if i == 0 {
      assert t[i := a][1..] == t[1..];
    } else {
      assert t[i := a][1..] == t[1..][i - 1 := a];
      DefaultsAfterWrite(t[1..], i - 1, a, account);
    }
  }

  lemma {:induction false} DefaultsAfterDelete(t: Table, i: nat, account: int)
    requires i < |t|
    ensures Defaults(t[..i] + t[i + 1..], account) ==
            Defaults(t, account) - (if IsDefault(t[i], account) then 1 else 0)
  {
    if i == 0 {
      assert t[..i] + t[i + 1..] == t[1..];
    } else {
      assert (t[..i] + t[i + 1..])[1..] == t[1..][..i - 1] + t[1..][i..];
      DefaultsAfterDelete(t[1..], i - 1, account);
    }
  }

  lemma {:induction false} HasDefaultIffCounted(t: Table, account: int)
    ensures HasDefault(t, account) <==> Defaults(t, account) > 0
    ensures HasDefault(t, account) <==> Fill(t, account).Some?
  {
    if t != [] {
      HasDefaultIffCounted(t[1..], account);
      if HasDefault(t, account) && !IsDefault(t[0], account) {
        var i :| 0 <= i < |t| && IsDefault(t[i], account);
        assert IsDefault(t[1..][i - 1], account);
      }
      if HasDefault(t[1..], account) {
        var i :| 0 <= i < |t[1..]| && IsDefault(t[1..][i], account);
        assert IsDefault(t[i + 1], account);
      }
    }
  }

  // ---------------------------------------------------------------- quick changes

  /**
   Whatever fails, and so after any prefix of the two writes, a quick change leaves every
   account that had a default with one, and never touches another account's rows.
   */
  lemma QuickChangeKeepsADefault(
      t: Table, account: int, addressID: int, toBeDisabled: int, first: bool, second: bool, any: int)
    requires DistinctIds(t) && HasDefault(t, any)
    ensures var t' := QuickChanged(t, account, addressID, toBeDisabled, first, second).0;
            && HasDefault(t', any) && |t'| == |t|
            && (forall k :: 0 <= k < |t| && t[k].accountID != account ==> t'[k] == t[k])
  {
    var (t', code) := QuickChanged(t, account, addressID, toBeDisabled, first, second);
    if t' != t {
      var k := if any == account then Find(t, addressID) else (var k :| 0 <= k < |t| && IsDefault(t[k], any); k);
      assert IsDefault(t'[k], any);
    }
  }

  /** On success the number of defaults changes by one up if the new one was none, and one down if the old one was. */
  lemma QuickChangeCount(t: Table, account: int, addressID: int, toBeDisabled: int)
    requires DistinctIds(t) && QuickChanged(t, account, addressID, toBeDisabled, false, false).1 == 200
    ensures var i, j := Find(t, addressID), Find(t, toBeDisabled);
            Defaults(QuickChanged(t, account, addressID, toBeDisabled, false, false).0, account) ==
            Defaults(t, account) + (if t[i].status then 0 else 1) - (if t[j].status then 1 else 0)
  {
    var i, j := Find(t, addressID), Find(t, toBeDisabled);
    var mid := WithStatus(t, i, true);
    DefaultsAfterWrite(t, i, t[i].(status := true), account);
    DefaultsAfterWrite(mid, j, mid[j].(status := false), account);
  }

  datatype Change = Change(addressID: int, toBeDisabled: int)

  /** The run of quick changes of one account in which each disables the default AddressFill finds. */
  ghost predicate Follows(t: Table, account: int, changes: seq<Change>)
    decreases |changes|
  {
    changes != [] ==>
      && Fill(t, account).Some? && changes[0].toBeDisabled == Fill(t, account).value.id
      && Follows(QuickChanged(t, account, changes[0].addressID, changes[0].toBeDisabled, false, false).0, account, changes[1..])
  }

  function Run(t: Table, account: int, changes: seq<Change>): Table
    decreases |changes|
  {
    if changes == [] then t
    else Run(QuickChanged(t, account, changes[0].addressID, changes[0].toBeDisabled, false, false).0, account, changes[1..])
  }

  lemma {:induction false} FillIsAtItsId(t: Table, account: int)
    requires DistinctIds(t) && Fill(t, account).Some?
    ensures var a := Fill(t, account).value;
            Find(t, a.id) < |t| && t[Find(t, a.id)] == a && IsDefault(a, account)
  {
    if !IsDefault(t[0], account) {
      FillIsAtItsId(t[1..], account);
    }
  }

  lemma {:induction false} OnlyDefaultIsFilled(t: Table, account: int, i: nat)
    requires Defaults(t, account) == 1 && i < |t| && IsDefault(t[i], account)
    ensures Fill(t, account) == Some(t[i])
  {
    if i > 0 {
      DefaultHereCounts(t[1..], account, i - 1);
      OnlyDefaultIsFilled(t[1..], account, i - 1);
    }
  }

  lemma {:induction false} DefaultHereCounts(t: Table, account: int, i: nat)
    requires i < |t| && IsDefault(t[i], account)
    ensures Defaults(t, account) >= 1
  {
    if i > 0 {
      DefaultHereCounts(t[1..], account, i - 1);
    }
  }

  /** A successful change that disables the default AddressFill finds makes the new address the one it finds next. */
  lemma ChangeMovesTheDefault(t: Table, account: int, c: Change)
    requires DistinctIds(t) && Defaults(t, account) == 1
    requires Fill(t, account).Some? && c.toBeDisabled == Fill(t, account).value.id
    ensures var (t', code) := QuickChanged(t, account, c.addressID, c.toBeDisabled, false, false);
            && DistinctIds(t') && Defaults(t', account) == 1
            && (code == 200 ==> Fill(t', account).Some? && Fill(t', account).value.id == c.addressID)
            && (code != 200 ==> t' == t)
  {
    var (t', code) := QuickChanged(t, account, c.addressID, c.toBeDisabled, false, false);
    FillIsAtItsId(t, account);
    if code == 200 {
      QuickChangeCount(t, account, c.addressID, c.toBeDisabled);
      var i := Find(t, c.addressID);
      if t[i].status {
        OnlyDefaultIsFilled(t, account, i);
      }
      OnlyDefaultIsFilled(t', account, i);
    }
  }

  /** The rows of all other accounts are as they were. */
  ghost predicate OthersUntouched(t: Table, t': Table, account: int) {
    |t'| == |t| && forall k :: 0 <= k < |t| && t[k].accountID != account ==> t'[k] == t[k]
  }

  lemma ChangeLeavesOthers(t: Table, account: int, addressID: int, toBeDisabled: int, first: bool, second: bool)
    requires DistinctIds(t)
    ensures var t' := QuickChanged(t, account, addressID, toBeDisabled, first, second).0;
            DistinctIds(t') && OthersUntouched(t, t', account)
    ensures forall k :: 0 <= k < |t| ==>
              QuickChanged(t, account, addressID, toBeDisabled, first, second).0[k].accountID == t[k].accountID
  {
  }

  /**
   A run that starts with one default and always disables the current one keeps exactly
   one, AddressFill finds it, and no other account's rows change.
   */
  lemma {:induction false} RunKeepsOneDefault(t: Table, account: int, changes: seq<Change>)
    requires DistinctIds(t) && Defaults(t, account) == 1 && Follows(t, account, changes)
    ensures var end := Run(t, account, changes);
            && Defaults(end, account) == 1 && Fill(end, account).Some? && IsDefault(Fill(end, account).value, account)
            && OthersUntouched(t, end, account)
    decreases |changes|
  {
    HasDefaultIffCounted(t, account);
    FillIsAtItsId(t, account);
    if changes != [] {
      ChangeMovesTheDefault(t, account, changes[0]);
      ChangeLeavesOthers(t, account, changes[0].addressID, changes[0].toBeDisabled, false, false);
      RunKeepsOneDefault(QuickChanged(t, account, changes[0].addressID, changes[0].toBeDisabled, false, false).0, account, changes[1..]);
    }
  }

  /** A quick change by anybody, with or without a failing write. */
  datatype Attempt = Attempt(account: int, addressID: int, toBeDisabled: int, firstFails: bool, secondFails: bool)

  function RunAttempts(t: Table, attempts: seq<Attempt>): Table
    decreases |attempts|
  {
    if attempts == [] then t
    else
      var a := attempts[0];
      RunAttempts(QuickChanged(t, a.account, a.addressID, a.toBeDisabled, a.firstFails, a.secondFails).0, attempts[1..])
  }

  /** No run of quick changes, whoever makes them and whichever writes fail, takes an account's last default away. */
  lemma {:induction false} NoRunLosesADefault(t: Table, attempts: seq<Attempt>, any: int)
    requires DistinctIds(t) && HasDefault(t, any)
    ensures HasDefault(RunAttempts(t, attempts), any)
    decreases |attempts|
  {
    if attempts != [] {
      var a := attempts[0];
      QuickChangeKeepsADefault(t, a.account, a.addressID, a.toBeDisabled, a.firstFails, a.secondFails, any);
      ChangeLeavesOthers(t, a.account, a.addressID, a.toBeDisabled, a.firstFails, a.secondFails);
      NoRunLosesADefault(
        QuickChanged(t, a.account, a.addressID, a.toBeDisabled, a.firstFails, a.secondFails).0, attempts[1..], any);
    }
  }

  // ---------------------------------------------------------------- edits and deletions

  /** A successful edit leaves the account a default exactly when it sets one or another row is one. */
  lemma EditKeepsADefaultIff(t: Table, account: int, addressID: int, status: bool, details: string)
    requires Edited(t, account, addressID, status, details, false).1 == 200
    ensures var i := Find(t, addressID);
            HasDefault(Edited(t, account, addressID, status, details, false).0, account)
            <==> status || Defaults(t, account) > (if t[i].status then 1 else 0)
  {
    var i := Find(t, addressID);
    var t' := Edited(t, account, addressID, status, details, false).0;
    DefaultsAfterWrite(t, i, t[i].(status := status, details := details), account);
    HasDefaultIffCounted(t', account);
    if t[i].status {
      DefaultHereCounts(t, account, i);
    }
  }

  /** A successful deletion leaves the account a default exactly when another row is one. */
  lemma DeleteKeepsADefaultIff(t: Table, account: int, addressID: int)
    requires Deleted(t, account, addressID, false).1 == 200
    ensures var i := Find(t, addressID);
            HasDefault(Deleted(t, account, addressID, false).0, account)
            <==> Defaults(t, account) > (if t[i].status then 1 else 0)
  {
    var i := Find(t, addressID);
    DefaultsAfterDelete(t, i, account);
    HasDefaultIffCounted(Deleted(t, account, addressID, false).0, account);
  }

  // ---------------------------------------------------------------- when the handlers succeed, and what they leave

  /** The account has an address with this ID. */
  ghost predicate Owns(t: Table, account: int, id: int) {
    exists k :: 0 <= k < |t| && t[k].id == id && t[k].accountID == account
  }

  lemma OwnsIffFound(t: Table, account: int, id: int)
    requires DistinctIds(t)
    ensures Owns(t, account, id) <==> Find(t, id) < |t| && t[Find(t, id)].accountID == account
  {
    if Owns(t, account, id) {
      var k :| 0 <= k < |t| && t[k].id == id && t[k].accountID == account;
      FindIsIndex(t, k);
    }
  }

  ghost predicate Exists(t: Table, id: int) {
    exists k :: 0 <= k < |t| && t[k].id == id
  }

  lemma ExistsIffFound(t: Table, id: int)
    ensures Exists(t, id) <==> Find(t, id) < |t|
  {
    assert Find(t, id) < |t| ==> t[Find(t, id)].id == id;
  }

  /** The response to a quick change tells what happened: it succeeds exactly between two different addresses of the account, if both writes do. */
  lemma QuickChangeCodes(t: Table, account: int, addressID: int, toBeDisabled: int, first: bool, second: bool)
    requires DistinctIds(t)
    ensures var code := QuickChanged(t, account, addressID, toBeDisabled, first, second).1;
            var named := account != 0 && addressID != 0 && toBeDisabled != 0 && addressID != toBeDisabled;
            var exist := Exists(t, addressID) && Exists(t, toBeDisabled);
            var own := Owns(t, account, addressID) && Owns(t, account, toBeDisabled);
            && (code == 400 <==> !named)
            && (code == 404 <==> named && !exist)
            && (code == 403 <==> named && exist && !own)
            && (code == 500 <==> named && own && (first || second))
            && (code == 200 <==> named && own && !first && !second)
  {
    OwnsIffFound(t, account, addressID);
    OwnsIffFound(t, account, toBeDisabled);
    ExistsIffFound(t, addressID);
    ExistsIffFound(t, toBeDisabled);
  }

  /** Then the two addresses have changed their status, each to its own, and nothing else has changed. */
  lemma QuickChangeEffect(t: Table, account: int, addressID: int, toBeDisabled: int, k: nat)
    requires DistinctIds(t) && k < |t|
    requires QuickChanged(t, account, addressID, toBeDisabled, false, false).1 == 200
    ensures var t' := QuickChanged(t, account, addressID, toBeDisabled, false, false).0;
            && |t'| == |t|
            && t'[k] == if t[k].id == addressID then t[k].(status := true)
                        else if t[k].id == toBeDisabled then t[k].(status := false)
                        else t[k]
  {
    FindIsIndex(t, k);
  }

  lemma EditCodes(t: Table, account: int, addressID: int, status: bool, details: string, fails: bool)
    requires DistinctIds(t)
    ensures var (t', code) := Edited(t, account, addressID, status, details, fails);
            var named := account != 0 && addressID != 0;
            && (code == 400 <==> !named)
            && (code == 404 <==> named && !Exists(t, addressID))
            && (code == 403 <==> named && Exists(t, addressID) && !Owns(t, account, addressID))
            && (code == 500 <==> named && Owns(t, account, addressID) && fails)
            && (code == 200 <==> named && Owns(t, account, addressID) && !fails)
            && (code != 200 ==> t' == t)
  {
    OwnsIffFound(t, account, addressID);
    ExistsIffFound(t, addressID);
  }

  /** A successful edit changes the status and the details of its own row, and nothing else. */
  lemma EditEffect(t: Table, account: int, addressID: int, status: bool, details: string, k: nat)
    requires DistinctIds(t) && k < |t| && Edited(t, account, addressID, status, details, false).1 == 200
    ensures var t' := Edited(t, account, addressID, status, details, false).0;
            && |t'| == |t|
            && t'[k] == if t[k].id == addressID then Address(addressID, account, status, details) else t[k]
  {
    FindIsIndex(t, k);
  }

  lemma DeleteCodes(t: Table, account: int, addressID: int, fails: bool)
    requires DistinctIds(t)
    ensures var (t', code) := Deleted(t, account, addressID, fails);
            var named := account != 0 && addressID != 0;
            && (code == 400 <==> !named)
            && (code == 404 <==> named && !Exists(t, addressID))
            && (code == 403 <==> named && Exists(t, addressID) && !Owns(t, account, addressID))
            && (code == 500 <==> named && Owns(t, account, addressID) && fails)
            && (code == 200 <==> named && Owns(t, account, addressID) && !fails)
            && (code != 200 ==> t' == t)
  {
    OwnsIffFound(t, account, addressID);
    ExistsIffFound(t, addressID);
  }

  /** A successful deletion removes exactly the one row. */
  lemma DeleteEffect(t: Table, account: int, addressID: int)
    requires DistinctIds(t) && Deleted(t, account, addressID, false).1 == 200
    ensures var t' := Deleted(t, account, addressID, false).0;
            && |t'| == |t| - 1
            && (forall x :: x in t' <==> x in t && x.id != addressID)
  {
    var i := Find(t, addressID);
    var t' := Deleted(t, account, addressID, false).0;
    assert forall k :: 0 <= k < i ==> t'[k] == t[k];
    assert forall k :: i < k < |t| ==> t'[k - 1] == t[k];
  }

  /** AddressFill finds an address of the account that is marked as its default. */
  lemma {:induction false} FillFindsADefault(t: Table, account: int)
    requires Fill(t, account).Some?
    ensures Fill(t, account).value in t && Fill(t, account).value.accountID == account && Fill(t, account).value.status
  {
    if !IsDefault(t[0], account) {
      FillFindsADefault(t[1..], account);
    }
  }
}
