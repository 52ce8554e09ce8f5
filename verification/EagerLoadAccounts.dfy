/**
 The N-1 direction of eager loading (models/address.go:491-607): each address of a
 slice gets its account, and each fetched account gets the addresses that name it.
 It is the inverse of the 1-M loader in module EagerLoad.
 */
module EagerLoadAccounts {
  import opened EagerLoad

  /** WHERE accountID IN ids, over the account table's keys. */
  function SelectAccounts(table: seq<int>, ids: set<int>): seq<int> {
    if table == [] then []
    else (if table[0] in ids then [table[0]] else []) + SelectAccounts(table[1..], ids)
  }

  lemma {:induction false} SelectAccountsAppend(a: seq<int>, b: seq<int>, ids: set<int>)
    ensures SelectAccounts(a + b, ids) == SelectAccounts(a, ids) + SelectAccounts(b, ids)
  {
    if a == [] {
      assert a + b == b;
    } else {
      var head := if a[0] in ids then [a[0]] else [];
      SelectAccountsAppend(a[1..], b, ids);
      assert (a + b)[0] == a[0] && (a + b)[1..] == a[1..] + b;
      assert head + (SelectAccounts(a[1..], ids) + SelectAccounts(b, ids))
          == (head + SelectAccounts(a[1..], ids)) + SelectAccounts(b, ids);
    }
  }

  /** The account table is keyed by its ID. */
  ghost predicate UniqueKeys(table: seq<int>) {
    forall i, j :: 0 <= i < j < |table| ==> table[i] != table[j]
  }

  function IdsOf(fetched: seq<Account>): seq<int> {
    seq(|fetched|, i requires 0 <= i < |fetched| => fetched[i].id)
  }

  /** queries.Bind for accounts: one fresh object for each selected row. */
  method QueryAccounts(table: seq<int>, args: set<int>) returns (fetched: seq<Account>)
    requires UniqueKeys(table)
    ensures IdsOf(fetched) == SelectAccounts(table, args)
    ensures DistinctIds(fetched)
    ensures forall g :: g in fetched ==> g.id in args
    ensures forall id :: id in table && id in args ==> First(fetched, id) < |fetched|
    ensures forall g :: g in fetched ==> fresh(g) && g.R == null
  {
    fetched := [];
    for k := 0 to |table|
      invariant IdsOf(fetched) == SelectAccounts(table[..k], args)
      invariant DistinctIds(fetched)
      invariant forall g :: g in fetched ==> fresh(g) && g.R == null && g.id in table[..k] && g.id in args
      invariant forall j :: 0 <= j < k && table[j] in args ==> exists i :: 0 <= i < |fetched| && fetched[i].id == table[j]
    {
      assert table[..k + 1] == table[..k] + [table[k]];
      SelectAccountsAppend(table[..k], [table[k]], args);
      if table[k] in args {
        var g := new Account(table[k]);
        ghost var before := fetched;
        fetched := fetched + [g];
        assert forall i :: 0 <= i < |before| ==> fetched[i] == before[i];
        assert fetched[|before|].id == table[k];
      }
    }
    assert table[..|table|] == table;
  }

  ghost predicate AddressesUnshared(slice: seq<Address>)
    reads set x | x in slice
  {
    forall x, y :: x in slice && y in slice && x != y && x.R != null ==> x.R != y.R
  }

  ghost function NamedIds(slice: seq<Address>): set<int> {
    set x | x in slice :: x.row.accountID
  }

  method PrepareAddresses(slice: seq<Address>) returns (args: set<int>)
    requires AddressesUnshared(slice)
    modifies slice`R
    ensures args == NamedIds(slice)
    ensures AddressesUnshared(slice)
    ensures forall x :: x in slice ==> x.R != null && (if old(x.R) == null then fresh(x.R) else x.R == old(x.R))
    ensures Owners(slice) == old(Owners(slice))
    ensures forall r :: r in AddressRs(slice) ==> fresh(r) || r in old(AddressRs(slice))
  {
    args := {};
    for i := 0 to |slice|
      invariant AddressesUnshared(slice)
      invariant args == NamedIds(slice[..i])
      invariant forall x :: x in slice[..i] ==> x.R != null
      invariant forall x :: x in slice ==>
                  if old(x.R) == null then x.R == null || (fresh(x.R) && x.R.account == null) else x.R == old(x.R)
    {
      var obj := slice[i];
      if obj.R == null {
        obj.R := new AddressR();
      }
      args := args + {obj.row.accountID};
      assert slice[..i + 1] == slice[..i] + [obj];
    }
    assert slice[..|slice|] == slice;
  }

  // ---------------------------------------------------------------- the links, as values

  /** The accounts' lists after each address of the slice has been added to the account it names. */
  ghost function Gathered(lists: map<Account, seq<Address>>, slice: seq<Address>, fetched: seq<Account>)
    : (m: map<Account, seq<Address>>)
    requires lists.Keys == (set g | g in fetched)
    ensures m.Keys == lists.Keys
  {
    if slice == [] then lists
    else
      var n := |slice| - 1;
      var m := Gathered(lists, slice[..n], fetched);
      var i := First(fetched, slice[n].row.accountID);
      if i < |fetched| then m[fetched[i] := m[fetched[i]] + [slice[n]]] else m
  }

  /** The owners after each address of the slice has been pointed at the account it names. */
  ghost function Assigned(owners: map<Address, Account?>, slice: seq<Address>, fetched: seq<Account>)
    : (m: map<Address, Account?>)
  {
    if slice == [] then owners
    else
      var n := |slice| - 1;
      var m := Assigned(owners, slice[..n], fetched);
      var i := First(fetched, slice[n].row.accountID);
      if i < |fetched| then m[slice[n] := fetched[i]] else m
  }

  lemma {:induction false} GatheredIsNaming(
      lists: map<Account, seq<Address>>, slice: seq<Address>, fetched: seq<Account>, g: Account)
    requires lists.Keys == (set g | g in fetched) && DistinctIds(fetched) && g in fetched
    ensures Gathered(lists, slice, fetched)[g] == lists[g] + Naming(slice, g.id)
  {
    if slice != [] {
      var n := |slice| - 1;
      GatheredIsNaming(lists, slice[..n], fetched, g);
      DistinctIdsAllChosen(fetched, g);
    }
  }

  lemma {:induction false} AssignedByName(
      owners: map<Address, Account?>, slice: seq<Address>, fetched: seq<Account>, x: Address)
    requires x in owners
    ensures x in Assigned(owners, slice, fetched)
    ensures Assigned(owners, slice, fetched)[x] ==
            if x in slice && First(fetched, x.row.accountID) < |fetched| then fetched[First(fetched, x.row.accountID)]
            else owners[x]
  {
    if slice != [] {
      var n := |slice| - 1;
      AssignedByName(owners, slice[..n], fetched, x);
      assert slice == slice[..n] + [slice[n]];
    }
  }

  // ---------------------------------------------------------------- the loops

  /** The body of the match: link the k-th address and the i-th fetched account to each other. */
  method LinkPair(slice: seq<Address>, k: nat, fetched: seq<Account>, i: nat)
    requires k < |slice| && i < |fetched| && AddressesUnshared(slice) && AccountsUnshared(fetched)
    requires forall x :: x in slice ==> x.R != null
    modifies slice[k].R, {fetched[i]}`R, fetched[i].R
    ensures AccountsUnshared(fetched)
    ensures forall x :: x in slice ==> x.R == old(x.R)
    ensures forall r :: r in Rs(fetched) ==> fresh(r) || r in old(Rs(fetched))
    ensures Owners(slice) == old(Owners(slice))[slice[k] := fetched[i]]
    ensures Lists(fetched) == old(Lists(fetched))[fetched[i] := old(Lists(fetched))[fetched[i]] + [slice[k]]]
  {
    var local, foreign := slice[k], fetched[i];
    local.R.account := foreign;
    if foreign.R == null {
      foreign.R := new AccountR();
    }
    foreign.R.addresses := foreign.R.addresses + [local];
  }

  /** The inner loop: point the k-th address at the fetched account it names, if there is one. */
  method LinkAccount(slice: seq<Address>, k: nat, fetched: seq<Account>)
    requires k < |slice| && AddressesUnshared(slice) && AccountsUnshared(fetched)
    requires forall x :: x in slice ==> x.R != null
    modifies slice[k].R, (set g | g in fetched)`R, Rs(fetched)
    ensures AccountsUnshared(fetched)
    ensures forall x :: x in slice ==> x.R == old(x.R)
    ensures forall r :: r in Rs(fetched) ==> fresh(r) || r in old(Rs(fetched))
    ensures var i := First(fetched, slice[k].row.accountID);
            if i < |fetched| then
              && Owners(slice) == old(Owners(slice))[slice[k] := fetched[i]]
              && Lists(fetched) == old(Lists(fetched))[fetched[i] := old(Lists(fetched))[fetched[i]] + [slice[k]]]
            else
              Owners(slice) == old(Owners(slice)) && Lists(fetched) == old(Lists(fetched))
  {
    for i := 0 to |fetched|
      invariant i <= First(fetched, slice[k].row.accountID)
      invariant AccountsUnshared(fetched) && Rs(fetched) == old(Rs(fetched)) && slice[k].R == old(slice[k].R)
      invariant Owners(slice) == old(Owners(slice)) && Lists(fetched) == old(Lists(fetched))
    {
      if slice[k].row.accountID == fetched[i].id {
        assert fetched[i] in fetched && (fetched[i].R != null ==> fetched[i].R in Rs(fetched));
        LinkPair(slice, k, fetched, i);
        break;
      }
    }
  }

  method LinkAccounts(slice: seq<Address>, fetched: seq<Account>)
    requires AddressesUnshared(slice) && AccountsUnshared(fetched)
    requires forall x :: x in slice ==> x.R != null
    modifies AddressRs(slice), (set g | g in fetched)`R, Rs(fetched)
    ensures Lists(fetched) == Gathered(old(Lists(fetched)), slice, fetched)
    ensures Owners(slice) == Assigned(old(Owners(slice)), slice, fetched)
  {
    for k := 0 to |slice|
      invariant AccountsUnshared(fetched)
      invariant forall x :: x in slice ==> x.R == old(x.R)
      invariant forall r :: r in Rs(fetched) ==> fresh(r) || r in old(Rs(fetched))
      invariant Lists(fetched) == Gathered(old(Lists(fetched)), slice[..k], fetched)
      invariant Owners(slice) == Assigned(old(Owners(slice)), slice[..k], fetched)
    {
      assert slice[k].R in AddressRs(slice);
      LinkAccount(slice, k, fetched);
      assert slice[..k + 1][..k] == slice[..k];
    }
    assert slice[..|slice|] == slice;
  }

  // ---------------------------------------------------------------- N-1

  /** What the slice form leaves behind: who points at whom. */
  ghost predicate Linked(
      slice: seq<Address>, fetched: seq<Account>,
      before: map<Address, Account?>, after: map<Address, Account?>, lists: map<Account, seq<Address>>)
    requires before.Keys == after.Keys == (set x | x in slice) && lists.Keys == (set g | g in fetched)
  {
    && DistinctIds(fetched)
    && (forall x :: x in slice ==>
          after[x] == var i := First(fetched, x.row.accountID); if i < |fetched| then fetched[i] else before[x])
    && (forall g :: g in fetched ==> lists[g] == Naming(slice, g.id))
  }

  method FetchAndLink(slice: seq<Address>, table: seq<int>, args: set<int>) returns (fetched: seq<Account>)
    requires args == NamedIds(slice) && UniqueKeys(table)
    requires AddressesUnshared(slice)
    requires forall x :: x in slice ==> x.R != null
    modifies AddressRs(slice)
    ensures IdsOf(fetched) == SelectAccounts(table, args)
    ensures forall x :: x in slice ==> (First(fetched, x.row.accountID) < |fetched| <==> x.row.accountID in table)
    ensures forall g :: g in fetched ==> fresh(g)
    ensures Linked(slice, fetched, old(Owners(slice)), Owners(slice), Lists(fetched))
  {
    fetched := QueryAccounts(table, args);
    NamedAreFetched(slice, table, fetched);
    if |fetched| == 0 {
      return fetched;
    }
    assert Owners(slice) == old(Owners(slice)) && AddressRs(slice) == old(AddressRs(slice)) && Rs(fetched) == {};
    LinksAsValues(slice, fetched, Owners(slice), Lists(fetched));
    LinkAccounts(slice, fetched);
  }

  lemma LinksAsValues(
      slice: seq<Address>, fetched: seq<Account>, owners: map<Address, Account?>, lists: map<Account, seq<Address>>)
    requires owners.Keys == (set x | x in slice) && lists.Keys == (set g | g in fetched) && DistinctIds(fetched)
    requires forall g :: g in fetched ==> lists[g] == []
    ensures Assigned(owners, slice, fetched).Keys == owners.Keys
    ensures Linked(slice, fetched, owners, Assigned(owners, slice, fetched), Gathered(lists, slice, fetched))
  {
    AssignedKeys(owners, slice, fetched);
    forall x | x in slice
      ensures Assigned(owners, slice, fetched)[x] ==
              var i := First(fetched, x.row.accountID); if i < |fetched| then fetched[i] else owners[x]
    {
      AssignedByName(owners, slice, fetched, x);
    }
    forall g | g in fetched
      ensures Gathered(lists, slice, fetched)[g] == Naming(slice, g.id)
    {
      GatheredIsNaming(lists, slice, fetched, g);
    }
  }

  lemma {:induction false} AssignedKeys(owners: map<Address, Account?>, slice: seq<Address>, fetched: seq<Account>)
    requires forall x :: x in slice ==> x in owners
    ensures Assigned(owners, slice, fetched).Keys == owners.Keys
  {
    if slice != [] {
      AssignedKeys(owners, slice[..|slice| - 1], fetched);
    }
  }

  lemma NamedAreFetched(slice: seq<Address>, table: seq<int>, fetched: seq<Account>)
    requires IdsOf(fetched) == SelectAccounts(table, NamedIds(slice))
    requires forall id :: id in table && id in NamedIds(slice) ==> First(fetched, id) < |fetched|
    ensures forall x :: x in slice ==> (First(fetched, x.row.accountID) < |fetched| <==> x.row.accountID in table)
  {
    SelectAccountsMembers(table, NamedIds(slice));
    forall x | x in slice
      ensures First(fetched, x.row.accountID) < |fetched| <==> x.row.accountID in table
    {
      var i := First(fetched, x.row.accountID);
      assert i < |fetched| ==> IdsOf(fetched)[i] in SelectAccounts(table, NamedIds(slice));
    }
  }

  lemma {:induction false} SelectAccountsMembers(table: seq<int>, ids: set<int>)
    ensures forall id :: id in SelectAccounts(table, ids) ==> id in table && id in ids
  {
    if table != [] {
      SelectAccountsMembers(table[1..], ids);
    }
  }

  /**
   LoadAccountIDAccount, slice form. A failed query leaves every address as it was;
   otherwise each address points at the fetched account it names (or where it pointed
   before, when the account does not exist), and each fetched account lists exactly the
   addresses of the slice that name it, in slice order.
   */
  method LoadAccounts(slice: seq<Address>, table: seq<int>, queryFails: bool)
    returns (err: bool, fetched: seq<Account>)
    requires UniqueKeys(table) && AddressesUnshared(slice)
    modifies slice`R, AddressRs(slice)
    ensures AddressesUnshared(slice)
    ensures forall x :: x in slice ==> x.R != null && (if old(x.R) == null then fresh(x.R) else x.R == old(x.R))
    ensures err == (queryFails && slice != [])
    ensures err ==> fetched == [] && Owners(slice) == old(Owners(slice))
    ensures !err ==> IdsOf(fetched) == SelectAccounts(table, NamedIds(slice))
    ensures !err ==> Linked(slice, fetched, old(Owners(slice)), Owners(slice), Lists(fetched))
    ensures !err ==> forall x :: x in slice ==> (First(fetched, x.row.accountID) < |fetched| <==> x.row.accountID in table)
    ensures forall g :: g in fetched ==> fresh(g)
  {
    var args := PrepareAddresses(slice);
    if |args| == 0 {
      NothingNamed(slice, table);
      return false, [];
    }
    if queryFails {
      return true, [];
    }
    fetched := FetchAndLink(slice, table, args);
    return false, fetched;
  }

  /** LoadAccountIDAccount, singular form: the first fetched account, if any, and the address appended to its list. */
  method LoadAccountOf(address: Address, table: seq<int>, queryFails: bool)
    returns (err: bool, fetched: seq<Account>)
    requires UniqueKeys(table)
    modifies {address}`R, address.R
    ensures address.R != null && (if old(address.R) == null then fresh(address.R) else address.R == old(address.R))
    ensures err == queryFails
    ensures err || address.row.accountID !in table ==> address.Owner() == old(address.Owner())
    ensures !err && address.row.accountID in table ==>
              |fetched| > 0 && fresh(fetched[0]) && fetched[0].id == address.row.accountID
              && address.Owner() == fetched[0] && fetched[0].Loaded() == [address]
  {
    if address.R == null {
      address.R := new AddressR();
    }
    if queryFails {
      return true, [];
    }
    fetched := QueryAccounts(table, {address.row.accountID});
    if |fetched| == 0 {
      return false, [];
    }
    var foreign := fetched[0];
    assert foreign in fetched && foreign.id == address.row.accountID;
    assert IdsOf(fetched)[0] in SelectAccounts(table, {address.row.accountID});
    SelectAccountsMembers(table, {address.row.accountID});
    address.R.account := foreign;
    if foreign.R == null {
      foreign.R := new AccountR();
    }
    foreign.R.addresses := foreign.R.addresses + [address];
    return false, fetched;
  }

  lemma NothingNamed(slice: seq<Address>, table: seq<int>)
    ensures NamedIds(slice) == {} <==> slice == []
    ensures SelectAccounts(table, {}) == []
  {
    if slice != [] {
      assert slice[0].row.accountID in NamedIds(slice);
    }
    NoAccountSelected(table);
  }

  lemma {:induction false} NoAccountSelected(table: seq<int>)
    ensures SelectAccounts(table, {}) == []
  {
    if table != [] {
      NoAccountSelected(table[1..]);
    }
  }

  /** Both directions agree: an address points at a fetched account iff that account lists it. */
  lemma ManyToOneIsTwoWay(
      slice: seq<Address>, fetched: seq<Account>,
      before: map<Address, Account?>, after: map<Address, Account?>, lists: map<Account, seq<Address>>,
      x: Address, g: Account)
    requires before.Keys == after.Keys == (set x | x in slice) && lists.Keys == (set g | g in fetched)
    requires Linked(slice, fetched, before, after, lists)
    requires x in slice && g in fetched && before[x] != g
    ensures after[x] == g <==> x in lists[g]
  {
    NamingMembers(slice, g.id);
    DistinctIdsAllChosen(fetched, g);
  }

  // ---------------------------------------------------------------- the two loaders build the same pairs

  /** The join of accounts and addresses on the account ID. */
  ghost function Join(ids: set<int>, rows: seq<AddressRow>): set<(int, AddressRow)> {
    set r | r in rows && r.accountID in ids :: (r.accountID, r)
  }

  /** What a list that was appended to has gained. */
  ghost function Gained(before: seq<Address>, after: seq<Address>): seq<Address> {
    if |before| <= |after| then after[|before|..] else []
  }

  /** The pairs the 1-M loader has linked: an account and an address its list has gained. */
  ghost function OneToManyLinks(
      slice: seq<Account>, before: map<Account, seq<Address>>, after: map<Account, seq<Address>>): set<(int, AddressRow)>
    requires before.Keys == after.Keys == (set a | a in slice)
  {
    set a, f | a in slice && f in Gained(before[a], after[a]) :: (a.id, f.row)
  }

  /** The pairs the N-1 loader has linked: an address and the account it points at. */
  ghost function ManyToOneLinks(slice: seq<Address>, after: map<Address, Account?>): set<(int, AddressRow)>
    requires after.Keys == (set x | x in slice)
  {
    set x | x in slice && after[x] != null :: (after[x].id, x.row)
  }

  lemma GainedPart(slice: seq<Account>, table: seq<AddressRow>, fetched: seq<Address>,
                   before: map<Account, seq<Address>>, after: map<Account, seq<Address>>, a: Account, f: Address)
    requires before.Keys == after.Keys == (set a | a in slice) && a in slice
    requires EagerLoad.Linked(slice, table, fetched, before, after)
    ensures f in Gained(before[a], after[a]) <==> Chosen(slice, a) && f in fetched && f.row.accountID == a.id
  {
    NamingMembers(fetched, a.id);
    var part := if Chosen(slice, a) then Naming(fetched, a.id) else [];
    assert after[a] == before[a] + part;
    assert Gained(before[a], after[a]) == part;
  }

  /** The 1-M loader links exactly the join of its slice with the address table. */
  lemma OneToManyPairs(
      slice: seq<Account>, table: seq<AddressRow>, fetched: seq<Address>,
      before: map<Account, seq<Address>>, after: map<Account, seq<Address>>)
    requires before.Keys == after.Keys == (set a | a in slice)
    requires EagerLoad.Linked(slice, table, fetched, before, after)
    ensures OneToManyLinks(slice, before, after) == Join(Ids(slice), table)
  {
    SelectInMembers(table, Ids(slice));
    forall a, f | a in slice && f in Gained(before[a], after[a])
      ensures (a.id, f.row) in Join(Ids(slice), table)
    {
      GainedPart(slice, table, fetched, before, after, a, f);
      var i :| 0 <= i < |fetched| && fetched[i] == f;
      assert Rows(fetched)[i] in SelectIn(table, Ids(slice));
    }
    forall r | r in table && r.accountID in Ids(slice)
      ensures (r.accountID, r) in OneToManyLinks(slice, before, after)
    {
      assert r in Rows(fetched);
      var i :| 0 <= i < |Rows(fetched)| && Rows(fetched)[i] == r;
      var a := slice[First(slice, r.accountID)];
      GainedPart(slice, table, fetched, before, after, a, fetched[i]);
      assert (a.id, fetched[i].row) == (r.accountID, r);
    }
  }

  /**
   The N-1 loader links exactly the join of the account table with its slice, provided
   the addresses whose account is missing pointed nowhere.
   */
  lemma ManyToOnePairs(
      slice: seq<Address>, table: seq<int>, fetched: seq<Account>,
      before: map<Address, Account?>, after: map<Address, Account?>, lists: map<Account, seq<Address>>)
    requires before.Keys == after.Keys == (set x | x in slice) && lists.Keys == (set g | g in fetched)
    requires Linked(slice, fetched, before, after, lists)
    requires forall x :: x in slice ==> (First(fetched, x.row.accountID) < |fetched| <==> x.row.accountID in table)
    requires forall x :: x in slice && x.row.accountID !in table ==> before[x] == null
    ensures ManyToOneLinks(slice, after) == Join((set id | id in table), Rows(slice))
  {
    forall x | x in slice && after[x] != null
      ensures (after[x].id, x.row) in Join((set id | id in table), Rows(slice))
    {
      var i :| 0 <= i < |slice| && slice[i] == x;
      assert Rows(slice)[i] == x.row;
    }
    forall r | r in Rows(slice) && r.accountID in table
      ensures (r.accountID, r) in ManyToOneLinks(slice, after)
    {
      var i :| 0 <= i < |slice| && Rows(slice)[i] == r;
      assert slice[i] in slice;
      assert (after[slice[i]].id, slice[i].row) == (r.accountID, r);
    }
  }

  /**
   The loaders are inverse: loaded from the accounts, or loaded from addresses with the
   rows that name these accounts, the linked pairs are the same. The accounts of the
   1-M slice are in the account table, and the 1-M lists need not be empty before.
   */
  lemma LoadersLinkTheSamePairs(
      accounts: seq<Account>, addressTable: seq<AddressRow>, found: seq<Address>,
      lists0: map<Account, seq<Address>>, lists1: map<Account, seq<Address>>,
      addresses: seq<Address>, accountTable: seq<int>, owners: seq<Account>,
      backs0: map<Address, Account?>, backs1: map<Address, Account?>, lists: map<Account, seq<Address>>)
    requires lists0.Keys == lists1.Keys == (set a | a in accounts)
    requires EagerLoad.Linked(accounts, addressTable, found, lists0, lists1)
    requires backs0.Keys == backs1.Keys == (set x | x in addresses) && lists.Keys == (set g | g in owners)
    requires Linked(addresses, owners, backs0, backs1, lists)
    requires forall x :: x in addresses ==> (First(owners, x.row.accountID) < |owners| <==> x.row.accountID in accountTable)
    requires forall id :: id in Ids(accounts) ==> id in accountTable
    requires forall r :: r in Rows(addresses) <==> r in addressTable && r.accountID in Ids(accounts)
    ensures OneToManyLinks(accounts, lists0, lists1) == ManyToOneLinks(addresses, backs1)
  {
    OneToManyPairs(accounts, addressTable, found, lists0, lists1);
    forall x | x in addresses
      ensures x.row.accountID in accountTable
    {
      var i :| 0 <= i < |addresses| && addresses[i] == x;
      assert Rows(addresses)[i] == x.row;
    }
    ManyToOnePairs(addresses, accountTable, owners, backs0, backs1, lists);
  }
}
