/**
 Eager loading between accounts and their addresses: the 1-M loader
 (models/account.go:805-914), the N-1 loader (models/address.go:491-607) and the
 lazy query of one account (models/account.go:706-717).

 A table is a sequence of rows, and a query returns the rows it selects in table
 order, bound to fresh objects. The loaders link objects in place, through the R
 field each object keeps for its loaded relations.
 */
module EagerLoad {
  import Sets

  datatype AddressRow = AddressRow(addressID: int, accountID: int)

  class AccountR {
    var addresses: seq<Address>

    constructor ()
      ensures addresses == []
    {
      addresses := [];
    }
  }

  class AddressR {
    var account: Account?

    constructor ()
      ensures account == null
    {
      account := null;
    }
  }

  class Account {
    const id: int
    var R: AccountR?

    constructor (id: int)
      ensures this.id == id && R == null
    {
      this.id := id;
      R := null;
    }

    /** The addresses loaded so far. */
    ghost function Loaded(): seq<Address>
      reads this, R
    {
      if R == null then [] else R.addresses
    }
  }

  class Address {
    const row: AddressRow
    var R: AddressR?

    constructor (row: AddressRow)
      ensures this.row == row && R == null
    {
      this.row := row;
      R := null;
    }

    ghost function Owner(): Account?
      reads this, R
    {
      if R == null then null else R.account
    }
  }

  // ---------------------------------------------------------------- queries

  /** WHERE accountID IN ids */
  function SelectIn(table: seq<AddressRow>, ids: set<int>): seq<AddressRow> {
    if table == [] then []
    else (if table[0].accountID in ids then [table[0]] else []) + SelectIn(table[1..], ids)
  }

  /** WHERE accountID = id: the lazy query of one account. */
  function SelectOf(table: seq<AddressRow>, id: int): seq<AddressRow> {
    SelectIn(table, {id})
  }

  function Rows(fetched: seq<Address>): seq<AddressRow> {
    seq(|fetched|, i requires 0 <= i < |fetched| => fetched[i].row)
  }

  /** The fetched addresses that name this account, in result order. */
  function Naming(fetched: seq<Address>, id: int): seq<Address> {
    if fetched == [] then []
    else
      var n := |fetched| - 1;
      Naming(fetched[..n], id) + (if fetched[n].row.accountID == id then [fetched[n]] else [])
  }

  lemma {:induction false} SelectInAppend(a: seq<AddressRow>, b: seq<AddressRow>, ids: set<int>)
    ensures SelectIn(a + b, ids) == SelectIn(a, ids) + SelectIn(b, ids)
  {
    if a == [] {
      assert a + b == b;
    } else {
      var head := if a[0].accountID in ids then [a[0]] else [];
      SelectInAppend(a[1..], b, ids);
      assert (a + b)[0] == a[0] && (a + b)[1..] == a[1..] + b;
      assert head + (SelectIn(a[1..], ids) + SelectIn(b, ids)) == (head + SelectIn(a[1..], ids)) + SelectIn(b, ids);
    }
  }

  /** The rows a lazy query selects are the ones it would select from the eager result. */
  lemma {:induction false} LazyWithinEager(table: seq<AddressRow>, ids: set<int>, id: int)
    requires id in ids
    ensures SelectOf(SelectIn(table, ids), id) == SelectOf(table, id)
  {
    if table != [] {
      LazyWithinEager(table[1..], ids, id);
      SelectInAppend(if table[0].accountID in ids then [table[0]] else [], SelectIn(table[1..], ids), {id});
    }
  }

  lemma {:induction false} RowsOfNaming(fetched: seq<Address>, id: int)
    ensures Rows(Naming(fetched, id)) == SelectOf(Rows(fetched), id)
  {
    if fetched != [] {
      var n := |fetched| - 1;
      RowsOfNaming(fetched[..n], id);
      assert Rows(fetched) == Rows(fetched[..n]) + [fetched[n].row];
      SelectInAppend(Rows(fetched[..n]), [fetched[n].row], {id});
    }
  }

  lemma {:induction false} NamingMembers(fetched: seq<Address>, id: int)
    ensures forall f :: f in Naming(fetched, id) <==> f in fetched && f.row.accountID == id
  {
    if fetched != [] {
      var n := |fetched| - 1;
      NamingMembers(fetched[..n], id);
      assert fetched == fetched[..n] + [fetched[n]];
    }
  }

  lemma {:induction false} SelectInMembers(table: seq<AddressRow>, ids: set<int>)
    ensures forall r :: r in SelectIn(table, ids) <==> r in table && r.accountID in ids
  {
    if table != [] {
      SelectInMembers(table[1..], ids);
    }
  }

  lemma {:induction false} SelectNone(table: seq<AddressRow>)
    ensures SelectIn(table, {}) == []
  {
    if table != [] {
      SelectNone(table[1..]);
    }
  }

  /** The lengths of the lazy results of distinct accounts add up to the length of the eager one. */
  function TotalLength(table: seq<AddressRow>, ids: seq<int>): nat {
    if ids == [] then 0 else |SelectOf(table, ids[0])| + TotalLength(table, ids[1..])
  }

  lemma {:induction false} SelectInDisjoint(table: seq<AddressRow>, a: set<int>, b: set<int>)
    requires a !! b
    ensures |SelectIn(table, a + b)| == |SelectIn(table, a)| + |SelectIn(table, b)|
  {
    if table != [] {
      SelectInDisjoint(table[1..], a, b);
    }
  }

  lemma {:induction false} LengthsAddUp(table: seq<AddressRow>, ids: seq<int>)
    requires forall i, j :: 0 <= i < j < |ids| ==> ids[i] != ids[j]
    ensures TotalLength(table, ids) == |SelectIn(table, set x | x in ids)|
  {
    if ids == [] {
      SelectNone(table);
      assert (set x | x in ids) == {};
    } else {
      LengthsAddUp(table, ids[1..]);
      var rest := set x | x in ids[1..];
      assert (set x | x in ids) == {ids[0]} + rest;
      SelectInDisjoint(table, {ids[0]}, rest);
    }
  }

  /** queries.Bind: one fresh object for each selected row. */
  method QueryAddresses(table: seq<AddressRow>, args: seq<int>) returns (fetched: seq<Address>)
    ensures Rows(fetched) == SelectIn(table, set x | x in args)
    ensures forall f :: f in fetched ==> fresh(f) && f.R == null
    ensures forall i, j :: 0 <= i < j < |fetched| ==> fetched[i] != fetched[j]
  {
    ghost var ids := set x | x in args;
    fetched := [];
    for k := 0 to |table|
      invariant Rows(fetched) == SelectIn(table[..k], ids)
      invariant forall f :: f in fetched ==> fresh(f) && f.R == null
      invariant forall i, j :: 0 <= i < j < |fetched| ==> fetched[i] != fetched[j]
    {
      assert table[..k + 1] == table[..k] + [table[k]];
      SelectInAppend(table[..k], [table[k]], ids);
      if table[k].accountID in args {
        var f := new Address(table[k]);
        fetched := fetched + [f];
      }
    }
    assert table[..|table|] == table;
  }

  /** The map of arguments turned into a slice, in whatever order the map is walked. */
  method ToSlice(args: set<int>) returns (argsSlice: seq<int>)
    ensures forall x :: x in argsSlice <==> x in args
  {
    argsSlice := [];
    var todo := args;
    while todo != {}
      invariant todo <= args
      invariant forall x :: x in argsSlice <==> x in args && x !in todo
    {
      Sets.HasMember(todo);
      var arg :| arg in todo;
      argsSlice := argsSlice + [arg];
      todo := todo - {arg};
    }
  }

  // ---------------------------------------------------------------- 1-M

  /** Different accounts of the slice do not share an R object. */
  ghost predicate AccountsUnshared(slice: seq<Account>)
    reads set a | a in slice
  {
    forall a, b :: a in slice && b in slice && a != b && a.R != null ==> a.R != b.R
  }

  /** The first position of the slice that carries an ID. */
  ghost function First(slice: seq<Account>, id: int): (i: nat)
    ensures i <= |slice|
    ensures i < |slice| ==> slice[i].id == id
    ensures forall j :: 0 <= j < i ==> slice[j].id != id
  {
    if slice == [] then 0 else if slice[0].id == id then 0 else 1 + First(slice[1..], id)
  }

  /** The account is the first of the slice with its ID; with distinct IDs every account is. */
  ghost predicate Chosen(slice: seq<Account>, a: Account) {
    First(slice, a.id) < |slice| && slice[First(slice, a.id)] == a
  }

  ghost function Ids(slice: seq<Account>): set<int> {
    set a | a in slice :: a.id
  }

  ghost function Rs(slice: seq<Account>): set<object>
    reads set a | a in slice
  {
    set a | a in slice && a.R != null :: a.R
  }

  /** The loaded lists of the accounts of a slice, by account. */
  ghost function Lists(slice: seq<Account>): (m: map<Account, seq<Address>>)
    reads (set a | a in slice), Rs(slice)
  {
    map a | a in slice :: a.Loaded()
  }

  method PrepareAccounts(slice: seq<Account>) returns (args: set<int>)
    requires AccountsUnshared(slice)
    modifies (set a | a in slice)`R
    ensures args == Ids(slice)
    ensures AccountsUnshared(slice)
    ensures forall a :: a in slice ==> a.R != null && (if old(a.R) == null then fresh(a.R) else a.R == old(a.R))
    ensures Lists(slice) == old(Lists(slice))
    ensures forall r :: r in Rs(slice) ==> fresh(r) || r in old(Rs(slice))
  {
    args := {};
    for i := 0 to |slice|
      invariant AccountsUnshared(slice)
      invariant args == Ids(slice[..i])
      invariant forall a :: a in slice[..i] ==> a.R != null
      invariant forall a :: a in slice ==> if old(a.R) == null then a.R == null || (fresh(a.R) && a.R.addresses == []) else a.R == old(a.R)
    {
      var obj := slice[i];
      if obj.R == null {
        obj.R := new AccountR();
      }
      args := args + {obj.id};
      assert slice[..i + 1] == slice[..i] + [obj];
    }
    assert slice[..|slice|] == slice;
  }

  ghost function AddressRs(slice: seq<Address>): set<object>
    reads set x | x in slice
  {
    set x | x in slice && x.R != null :: x.R
  }

  /** The account each address points at. */
  ghost function Owners(slice: seq<Address>): map<Address, Account?>
    reads (set x | x in slice), AddressRs(slice)
  {
    map x | x in slice :: x.Owner()
  }

  /** The account an address goes to: the first of the slice with the ID it names. */
  ghost predicate IsOwner(slice: seq<Account>, f: Address, a: Account) {
    First(slice, f.row.accountID) < |slice| && slice[First(slice, f.row.accountID)] == a
  }

  ghost predicate AreOwners(slice: seq<Account>, fetched: seq<Address>, owners: seq<Account>) {
    |owners| == |fetched| && forall i :: 0 <= i < |fetched| ==> owners[i] in slice && IsOwner(slice, fetched[i], owners[i])
  }

  /** The lists after each fetched address has gone to its owner. */
  ghost function Handed(lists: map<Account, seq<Address>>, owners: seq<Account>, fetched: seq<Address>)
    : (m: map<Account, seq<Address>>)
    requires |owners| == |fetched|
    ensures m.Keys == lists.Keys
  {
    if fetched == [] then lists
    else
      var n := |fetched| - 1;
      var m := Handed(lists, owners[..n], fetched[..n]);
      if owners[n] in m then m[owners[n] := m[owners[n]] + [fetched[n]]] else m
  }

  /** The owner of an address is the one chosen account it names. */
  lemma OwnerIsTheChosenNamed(slice: seq<Account>, f: Address, owner: Account, a: Account)
    requires IsOwner(slice, f, owner) && a in slice
    ensures owner == a <==> Chosen(slice, a) && f.row.accountID == a.id
  {
  }

  /** Only the first account with an ID is ever handed anything, and it gets every address naming it, in order. */
  lemma {:induction false} HandedToTheChosen(
      slice: seq<Account>, lists: map<Account, seq<Address>>, owners: seq<Account>, fetched: seq<Address>, a: Account)
    requires lists.Keys == (set a | a in slice) && AreOwners(slice, fetched, owners) && a in slice
    ensures Handed(lists, owners, fetched)[a] ==
            lists[a] + (if Chosen(slice, a) then Naming(fetched, a.id) else [])
  {
    if fetched != [] {
      var n := |fetched| - 1;
      HandedToTheChosen(slice, lists, owners[..n], fetched[..n], a);
      OwnerIsTheChosenNamed(slice, fetched[n], owners[n], a);
    }
  }

  /** The inner loop: hand the k-th fetched address to the first account it names. */
  method LinkAddress(slice: seq<Account>, fetched: seq<Address>, k: nat, ghost owner: Account)
    requires k < |fetched| && fetched[k].R == null && IsOwner(slice, fetched[k], owner) && owner.R != null
    modifies owner.R, {fetched[k]}`R
    ensures owner.R.addresses == old(owner.R.addresses) + [fetched[k]]
    ensures fetched[k].R != null && fresh(fetched[k].R) && fetched[k].R.account == owner
  {
    var foreign := fetched[k];
    for j := 0 to |slice|
      invariant j <= First(slice, foreign.row.accountID)
      invariant owner.R.addresses == old(owner.R.addresses)
      invariant foreign.R == null
    {
      var local := slice[j];
      if local.id == foreign.row.accountID {
        local.R.addresses := local.R.addresses + [foreign];
        if foreign.R == null {
          foreign.R := new AddressR();
        }
        foreign.R.account := local;
        break;
      }
    }
  }

  /** Handing out one address more. */
  lemma HandedStep(
      lists: map<Account, seq<Address>>, owners: seq<Account>, fetched: seq<Address>, k: nat)
    requires k < |owners| == |fetched| && owners[k] in lists
    ensures var m := Handed(lists, owners[..k], fetched[..k]);
            Handed(lists, owners[..k + 1], fetched[..k + 1]) == m[owners[k] := m[owners[k]] + [fetched[k]]]
  {
    assert owners[..k + 1][..k] == owners[..k] && fetched[..k + 1][..k] == fetched[..k];
  }

  /** The back pointers after each fetched address has been pointed at its owner. */
  ghost function PointedBack(backs: map<Address, Account?>, owners: seq<Account>, fetched: seq<Address>)
    : map<Address, Account?>
    requires |owners| == |fetched|
  {
    if fetched == [] then backs
    else
      var n := |fetched| - 1;
      PointedBack(backs, owners[..n], fetched[..n])[fetched[n] := owners[n]]
  }

  lemma PointedStep(backs: map<Address, Account?>, owners: seq<Account>, fetched: seq<Address>, k: nat)
    requires k < |owners| == |fetched|
    ensures PointedBack(backs, owners[..k + 1], fetched[..k + 1]) ==
            PointedBack(backs, owners[..k], fetched[..k])[fetched[k] := owners[k]]
  {
    assert owners[..k + 1][..k] == owners[..k] && fetched[..k + 1][..k] == fetched[..k];
  }

  lemma {:induction false} PointedAtOwner(backs: map<Address, Account?>, owners: seq<Account>, fetched: seq<Address>, i: nat)
    requires i < |owners| == |fetched|
    requires forall i, j :: 0 <= i < j < |fetched| ==> fetched[i] != fetched[j]
    ensures fetched[i] in PointedBack(backs, owners, fetched)
    ensures PointedBack(backs, owners, fetched)[fetched[i]] == owners[i]
  {
    var n := |fetched| - 1;
    if i < n {
      PointedAtOwner(backs, owners[..n], fetched[..n], i);
    }
  }

  /** The addresses that have no R yet. */
  ghost function Bare(fetched: seq<Address>): set<Address>
    reads set f | f in fetched
  {
    set f | f in fetched && f.R == null
  }

  /** The addresses from position k on. */
  ghost function From(fetched: seq<Address>, k: nat): set<Address>
    requires k <= |fetched|
  {
    set f | f in fetched[k..]
  }

  lemma FromStep(fetched: seq<Address>, k: nat)
    requires k < |fetched| && forall i, j :: 0 <= i < j < |fetched| ==> fetched[i] != fetched[j]
    ensures fetched[k] in From(fetched, k) && From(fetched, k + 1) == From(fetched, k) - {fetched[k]}
  {
    assert fetched[k..] == [fetched[k]] + fetched[k + 1..];
  }

  /** One round of the outer loop: one list grows by one address, one back pointer is set, and all others stay. */
  method LinkNext(slice: seq<Account>, fetched: seq<Address>, k: nat, ghost owner: Account)
    requires AccountsUnshared(slice)
    requires forall a :: a in slice ==> a.R != null
    requires forall i, j :: 0 <= i < j < |fetched| ==> fetched[i] != fetched[j]
    requires k < |fetched| && fetched[k] in Bare(fetched) && IsOwner(slice, fetched[k], owner)
    modifies owner.R, {fetched[k]}`R
    ensures AccountsUnshared(slice) && forall a :: a in slice ==> a.R == old(a.R)
    ensures Lists(slice) == old(Lists(slice))[owner := old(Lists(slice))[owner] + [fetched[k]]]
    ensures Bare(fetched) == old(Bare(fetched)) - {fetched[k]}
    ensures Owners(fetched) == old(Owners(fetched))[fetched[k] := owner]
  {
    LinkAddress(slice, fetched, k, owner);
  }

  /** The first k fetched addresses have been handed out, and the others are still unlinked. */
  ghost predicate HandedOut(
      slice: seq<Account>, fetched: seq<Address>, owners: seq<Account>,
      lists: map<Account, seq<Address>>, backs: map<Address, Account?>, k: nat)
    requires k <= |fetched| == |owners|
    reads (set a | a in slice), Rs(slice), (set f | f in fetched), AddressRs(fetched)
  {
    && AccountsUnshared(slice) && (forall a :: a in slice ==> a.R != null)
    && Lists(slice) == Handed(lists, owners[..k], fetched[..k])
    && Owners(fetched) == PointedBack(backs, owners[..k], fetched[..k])
    && Bare(fetched) == From(fetched, k)
  }

  method LinkRound(slice: seq<Account>, fetched: seq<Address>, k: nat, ghost owners: seq<Account>,
                   ghost lists: map<Account, seq<Address>>, ghost backs: map<Address, Account?>)
    requires AreOwners(slice, fetched, owners) && k < |fetched| && lists.Keys == (set a | a in slice)
    requires forall i, j :: 0 <= i < j < |fetched| ==> fetched[i] != fetched[j]
    requires HandedOut(slice, fetched, owners, lists, backs, k)
    modifies owners[k].R, {fetched[k]}`R
    ensures HandedOut(slice, fetched, owners, lists, backs, k + 1)
    ensures forall a :: a in slice ==> a.R == old(a.R)
  {
    FromStep(fetched, k);
    HandedStep(lists, owners, fetched, k);
    PointedStep(backs, owners, fetched, k);
    LinkNext(slice, fetched, k, owners[k]);
  }

  /** The outer loop over the fetched addresses. */
  method LinkAddresses(slice: seq<Account>, fetched: seq<Address>, ghost owners: seq<Account>)
    requires AccountsUnshared(slice)
    requires forall a :: a in slice ==> a.R != null
    requires AreOwners(slice, fetched, owners) && Bare(fetched) == From(fetched, 0)
    requires forall i, j :: 0 <= i < j < |fetched| ==> fetched[i] != fetched[j]
    modifies Rs(slice), (set f | f in fetched)`R
    ensures AccountsUnshared(slice) && forall a :: a in slice ==> a.R == old(a.R)
    ensures Lists(slice) == Handed(old(Lists(slice)), owners, fetched)
    ensures Owners(fetched) == PointedBack(old(Owners(fetched)), owners, fetched)
  {
    ghost var lists, backs := Lists(slice), Owners(fetched);
    for k := 0 to |fetched|
      invariant HandedOut(slice, fetched, owners, lists, backs, k)
      invariant forall a :: a in slice ==> a.R == old(a.R)
    {
      assert owners[k] in slice && owners[k].R in Rs(slice) && fetched[k] in fetched;
      LinkRound(slice, fetched, k, owners, lists, backs);
    }
    assert fetched[..|fetched|] == fetched && owners[..|fetched|] == owners;
  }

  /** Run the IN query for the accounts of a slice. */
  method FetchFor(slice: seq<Account>, table: seq<AddressRow>, args: set<int>)
    returns (fetched: seq<Address>, ghost owners: seq<Account>)
    requires args == Ids(slice)
    ensures Rows(fetched) == SelectIn(table, args)
    ensures forall f :: f in fetched ==> fresh(f) && f.R == null
    ensures forall i, j :: 0 <= i < j < |fetched| ==> fetched[i] != fetched[j]
    ensures AreOwners(slice, fetched, owners)
  {
    var argsSlice := ToSlice(args);
    Sets.SameMembers((set x | x in argsSlice), args);
    fetched := QueryAddresses(table, argsSlice);
    SelectInMembers(table, args);
    ghost var rows := fetched;
    forall i | 0 <= i < |rows|
      ensures First(slice, rows[i].row.accountID) < |slice|
    {
      assert Rows(rows)[i] in SelectIn(table, args);
      assert rows[i].row.accountID in Ids(slice);
    }
    owners := seq(|rows|, i requires 0 <= i < |rows| => slice[First(slice, rows[i].row.accountID)]);
  }

  /** Whatever an account was handed is what its own lazy query returns, in result order. */
  lemma EagerIsLazy(slice: seq<Account>, table: seq<AddressRow>, fetched: seq<Address>, a: Account)
    requires a in slice && Rows(fetched) == SelectIn(table, Ids(slice))
    ensures Rows(Naming(fetched, a.id)) == SelectOf(table, a.id)
  {
    RowsOfNaming(fetched, a.id);
    LazyWithinEager(table, Ids(slice), a.id);
  }

  /** What was added to each list, and where each fetched address points back to. */
  ghost predicate Linked(
      slice: seq<Account>, table: seq<AddressRow>, fetched: seq<Address>,
      before: map<Account, seq<Address>>, after: map<Account, seq<Address>>)
    requires before.Keys == after.Keys == (set a | a in slice)
  {
    && Rows(fetched) == SelectIn(table, Ids(slice))
    && (forall a :: a in slice ==>
          after[a] == before[a] + (if Chosen(slice, a) then Naming(fetched, a.id) else []))
    && (forall a :: a in slice ==> Rows(Naming(fetched, a.id)) == SelectOf(table, a.id))
  }

  lemma NoIdsNoAccounts(slice: seq<Account>)
    ensures Ids(slice) == {} <==> slice == []
  {
    if slice != [] {
      assert slice[0].id in Ids(slice);
    }
  }

  lemma NothingToLink(slice: seq<Account>, table: seq<AddressRow>, lists: map<Account, seq<Address>>)
    requires Ids(slice) == {} && lists.Keys == (set a | a in slice)
    ensures slice == [] && Linked(slice, table, [], lists, lists)
  {
    NoIdsNoAccounts(slice);
    SelectNone(table);
  }

  method FetchAndLink(slice: seq<Account>, table: seq<AddressRow>, args: set<int>) returns (fetched: seq<Address>)
    requires args == Ids(slice)
    requires AccountsUnshared(slice)
    requires forall a :: a in slice ==> a.R != null
    modifies Rs(slice)
    ensures AccountsUnshared(slice) && forall a :: a in slice ==> a.R == old(a.R)
    ensures Linked(slice, table, fetched, old(Lists(slice)), Lists(slice))
    ensures forall i :: 0 <= i < |fetched| ==>
              fresh(fetched[i]) && fetched[i].Owner() != null && IsOwner(slice, fetched[i], fetched[i].Owner())
  {
    ghost var owners;
    fetched, owners := FetchFor(slice, table, args);
    assert Lists(slice) == old(Lists(slice)) && Rs(slice) == old(Rs(slice));
    ghost var backs := Owners(fetched);
    assert Bare(fetched) == From(fetched, 0);
    LinkAddresses(slice, fetched, owners);
    forall i | 0 <= i < |fetched|
      ensures fetched[i].Owner() == owners[i]
    {
      PointedAtOwner(backs, owners, fetched, i);
      assert fetched[i].Owner() == Owners(fetched)[fetched[i]];
    }
    forall a | a in slice
      ensures Lists(slice)[a] == old(Lists(slice))[a] + (if Chosen(slice, a) then Naming(fetched, a.id) else [])
      ensures Rows(Naming(fetched, a.id)) == SelectOf(table, a.id)
    {
      HandedToTheChosen(slice, old(Lists(slice)), owners, fetched, a);
      EagerIsLazy(slice, table, fetched, a);
    }
  }

  /**
   LoadAccountIDAddresses, slice form. A failed query leaves every list as it was;
   otherwise the first account with an ID gains the rows of its own lazy query, in
   result order, and any later account with that ID gains nothing.
   */
  method LoadAddresses(slice: seq<Account>, table: seq<AddressRow>, queryFails: bool)
    returns (err: bool, fetched: seq<Address>)
    requires AccountsUnshared(slice)
    modifies (set a | a in slice)`R, Rs(slice)
    ensures AccountsUnshared(slice)
    ensures forall a :: a in slice ==> a.R != null && (if old(a.R) == null then fresh(a.R) else a.R == old(a.R))
    ensures forall r :: r in Rs(slice) ==> fresh(r) || r in old(Rs(slice))
    ensures err == (queryFails && slice != [])
    ensures err ==> fetched == [] && Lists(slice) == old(Lists(slice))
    ensures !err ==> Linked(slice, table, fetched, old(Lists(slice)), Lists(slice))
    ensures forall i :: 0 <= i < |fetched| ==>
              fresh(fetched[i]) && fetched[i].Owner() != null && IsOwner(slice, fetched[i], fetched[i].Owner())
  {
    var args := PrepareAccounts(slice);
    if |args| == 0 {
      NothingToLink(slice, table, Lists(slice));
      return false, [];
    }
    if queryFails {
      return true, [];
    }
    fetched := FetchAndLink(slice, table, args);
    return false, fetched;
  }

  /**
   LoadAccountIDAddresses, singular form: the list is replaced, so loading twice
   leaves one copy.
   */
  method LoadAddressesOf(account: Account, table: seq<AddressRow>, queryFails: bool)
    returns (err: bool, fetched: seq<Address>)
    modifies account`R, account.R
    ensures account.R != null && (if old(account.R) == null then fresh(account.R) else account.R == old(account.R))
    ensures err == queryFails
    ensures err ==> account.Loaded() == old(account.Loaded())
    ensures !err ==> account.Loaded() == fetched && Rows(fetched) == SelectOf(table, account.id)
    ensures !err ==> forall i :: 0 <= i < |fetched| ==> fresh(fetched[i]) && fetched[i].Owner() == account
  {
    if account.R == null {
      account.R := new AccountR();
    }
    if queryFails {
      return true, [];
    }
    fetched := QueryAddresses(table, [account.id]);
    assert (set x | x in [account.id]) == {account.id};
    account.R.addresses := fetched;
    LinkAll(account, fetched);
    return false, fetched;
  }

  /** Point every fetched address at the one account it was loaded for. */
  method LinkAll(account: Account, fetched: seq<Address>)
    requires forall i :: 0 <= i < |fetched| ==> fetched[i].R == null
    requires forall i, j :: 0 <= i < j < |fetched| ==> fetched[i] != fetched[j]
    modifies (set f | f in fetched)`R
    ensures forall i :: 0 <= i < |fetched| ==> fetched[i].R != null && fresh(fetched[i].R) && fetched[i].Owner() == account
  {
    for i := 0 to |fetched|
      invariant forall j :: i <= j < |fetched| ==> fetched[j].R == null
      invariant forall j :: 0 <= j < i ==> fetched[j].R != null && fresh(fetched[j].R) && fetched[j].Owner() == account
    {
      var foreign := fetched[i];
      assert foreign in fetched;
      if foreign.R == null {
        foreign.R := new AddressR();
      }
      assert forall j :: 0 <= j < i ==> fetched[j].R != foreign.R;
      foreign.R.account := account;
    }
  }

  // ---------------------------------------------------------------- what the 1-M links amount to

  /** Both directions agree: an address is in the part an account gained iff it points back at the account. */
  lemma OneToManyIsTwoWay(slice: seq<Account>, fetched: seq<Address>, f: Address, owner: Account, a: Account)
    requires f in fetched && IsOwner(slice, f, owner) && a in slice
    ensures owner == a <==> Chosen(slice, a) && f in Naming(fetched, a.id)
  {
    NamingMembers(fetched, a.id);
  }

  ghost predicate DistinctIds(slice: seq<Account>) {
    forall i, j :: 0 <= i < j < |slice| ==> slice[i].id != slice[j].id
  }

  lemma {:induction false} DistinctIdsAllChosen(slice: seq<Account>, a: Account)
    requires DistinctIds(slice) && a in slice
    ensures Chosen(slice, a)
  {
    var i :| 0 <= i < |slice| && slice[i] == a;
    assert First(slice, a.id) == i;
  }

  /** How much the lists of the accounts of a slice have grown in all, each account counted once. */
  ghost function Growth(slice: seq<Account>, before: map<Account, seq<Address>>, after: map<Account, seq<Address>>): int
    requires forall a :: a in slice ==> a in before && a in after
  {
    if slice == [] then 0
    else
      var n := |slice| - 1;
      Growth(slice[..n], before, after)
      + (if slice[n] in slice[..n] then 0 else |after[slice[n]]| - |before[slice[n]]|)
  }

  /** The first account with an ID is the one at the first position that carries it. */
  lemma ChosenIffNewId(slice: seq<Account>, k: nat)
    requires k < |slice| && slice[k] !in slice[..k]
    ensures Chosen(slice, slice[k]) <==> slice[k].id !in Ids(slice[..k])
  {
    var i := First(slice, slice[k].id);
    assert i <= k;
    if i < k {
      assert slice[..k][i] == slice[i];
    } else {
      assert forall j :: 0 <= j < k ==> slice[..k][j] == slice[j];
    }
  }

  lemma IdsOneMore(slice: seq<Account>, k: nat)
    requires k < |slice|
    ensures Ids(slice[..k + 1]) == Ids(slice[..k]) + {slice[k].id}
  {
    assert slice[..k + 1] == slice[..k] + [slice[k]];
    Sets.SameMembers(Ids(slice[..k + 1]), Ids(slice[..k]) + {slice[k].id});
  }

  /** What an account has gained, if it is met for the first time at position k. */
  ghost function Gain(slice: seq<Account>, k: nat, before: map<Account, seq<Address>>, after: map<Account, seq<Address>>): int
    requires k < |slice| && slice[k] in before && slice[k] in after
  {
    if slice[k] in slice[..k] then 0 else |after[slice[k]]| - |before[slice[k]]|
  }

  /** An account with an ID met before gains nothing, and the IDs stay the same. */
  lemma RepeatedIdGainsNothing(
      slice: seq<Account>, table: seq<AddressRow>, fetched: seq<Address>,
      before: map<Account, seq<Address>>, after: map<Account, seq<Address>>, k: nat)
    requires before.Keys == after.Keys == (set a | a in slice) && k < |slice|
    requires Linked(slice, table, fetched, before, after) && slice[k].id in Ids(slice[..k])
    ensures Gain(slice, k, before, after) == 0 && Ids(slice[..k + 1]) == Ids(slice[..k])
  {
    IdsOneMore(slice, k);
    Sets.SameMembers(Ids(slice[..k + 1]), Ids(slice[..k]));
    if slice[k] !in slice[..k] {
      ChosenIffNewId(slice, k);
    }
  }

  /** An account with a new ID gains as many addresses as its own lazy query returns. */
  lemma NewIdGainsItsRows(
      slice: seq<Account>, table: seq<AddressRow>, fetched: seq<Address>,
      before: map<Account, seq<Address>>, after: map<Account, seq<Address>>, k: nat)
    requires before.Keys == after.Keys == (set a | a in slice) && k < |slice|
    requires Linked(slice, table, fetched, before, after) && slice[k].id !in Ids(slice[..k])
    ensures Gain(slice, k, before, after) == |SelectOf(table, slice[k].id)|
  {
    var a := slice[k];
    assert a !in slice[..k];
    ChosenIffNewId(slice, k);
    assert after[a] == before[a] + Naming(fetched, a.id);
    assert |Rows(Naming(fetched, a.id))| == |Naming(fetched, a.id)|;
  }

  lemma NewIdAddsItsRows(slice: seq<Account>, table: seq<AddressRow>, k: nat)
    requires k < |slice| && slice[k].id !in Ids(slice[..k])
    ensures |SelectIn(table, Ids(slice[..k + 1]))| == |SelectIn(table, Ids(slice[..k]))| + |SelectOf(table, slice[k].id)|
  {
    IdsOneMore(slice, k);
    SelectInDisjoint(table, Ids(slice[..k]), {slice[k].id});
  }

  lemma GrowthStep(slice: seq<Account>, before: map<Account, seq<Address>>, after: map<Account, seq<Address>>, k: nat)
    requires k < |slice| && forall a :: a in slice ==> a in before && a in after
    ensures Growth(slice[..k + 1], before, after) == Growth(slice[..k], before, after) + Gain(slice, k, before, after)
  {
    assert slice[..k + 1][..k] == slice[..k];
  }

  lemma NothingGrown(slice: seq<Account>, table: seq<AddressRow>)
    ensures |SelectIn(table, Ids(slice[..0]))| == 0
  {
    SelectNone(table);
    assert Ids(slice[..0]) == {};
  }

  lemma OneMoreGrown(
      slice: seq<Account>, table: seq<AddressRow>, fetched: seq<Address>,
      before: map<Account, seq<Address>>, after: map<Account, seq<Address>>, k: nat)
    requires before.Keys == after.Keys == (set a | a in slice) && k < |slice|
    requires Linked(slice, table, fetched, before, after)
    ensures Gain(slice, k, before, after) ==
            |SelectIn(table, Ids(slice[..k + 1]))| - |SelectIn(table, Ids(slice[..k]))|
  {
    if slice[k].id in Ids(slice[..k]) {
      RepeatedIdGainsNothing(slice, table, fetched, before, after, k);
    } else {
      NewIdGainsItsRows(slice, table, fetched, before, after, k);
      NewIdAddsItsRows(slice, table, k);
    }
  }

  /** The first k accounts have together gained the rows that name one of them. */
  lemma {:induction false} GrowthOfPrefix(
      slice: seq<Account>, table: seq<AddressRow>, fetched: seq<Address>,
      before: map<Account, seq<Address>>, after: map<Account, seq<Address>>, k: nat)
    requires before.Keys == after.Keys == (set a | a in slice) && k <= |slice|
    requires Linked(slice, table, fetched, before, after)
    ensures Growth(slice[..k], before, after) == |SelectIn(table, Ids(slice[..k]))|
  {
    assert forall a :: a in slice ==> a in before && a in after;
    if k == 0 {
      NothingGrown(slice, table);
    } else {
      var j := k - 1;
      GrowthOfPrefix(slice, table, fetched, before, after, j);
      GrowthStep(slice, before, after, j);
      OneMoreGrown(slice, table, fetched, before, after, j);
      assert j + 1 == k;
    }
  }

  /**
   Conservation, for any slice, with repeated IDs and repeated objects: every fetched row
   lands in exactly one list, so the growth adds up to the number of rows.
   */
  lemma GrowthIsTheRowCount(
      slice: seq<Account>, table: seq<AddressRow>, fetched: seq<Address>,
      before: map<Account, seq<Address>>, after: map<Account, seq<Address>>)
    requires before.Keys == after.Keys == (set a | a in slice)
    requires Linked(slice, table, fetched, before, after)
    ensures Growth(slice, before, after) == |fetched|
  {
    GrowthOfPrefix(slice, table, fetched, before, after, |slice|);
    assert slice[..|slice|] == slice && |Rows(fetched)| == |fetched|;
  }

  function Copies(rows: seq<AddressRow>, times: nat): seq<AddressRow> {
    if times == 0 then [] else Copies(rows, times - 1) + rows
  }

  /** What one slice load adds to an account. */
  ghost function Share(slice: seq<Account>, table: seq<AddressRow>, a: Account): seq<AddressRow> {
    if Chosen(slice, a) then SelectOf(table, a.id) else []
  }

  /** A successful slice load, seen as rows. */
  method LoadOnce(slice: seq<Account>, table: seq<AddressRow>)
    requires AccountsUnshared(slice)
    modifies slice`R, Rs(slice)
    ensures AccountsUnshared(slice)
    ensures forall r :: r in Rs(slice) ==> fresh(r) || r in old(Rs(slice))
    ensures forall a :: a in slice ==> Rows(Lists(slice)[a]) == Rows(old(Lists(slice))[a]) + Share(slice, table, a)
  {
    var _, fetched := LoadAddresses(slice, table, false);
    forall a | a in slice
      ensures Rows(Lists(slice)[a]) == Rows(old(Lists(slice))[a]) + Share(slice, table, a)
    {
      RowsAfter(slice, table, fetched, old(Lists(slice)), Lists(slice), a);
    }
  }

  lemma RowsAppend(a: seq<Address>, b: seq<Address>)
    ensures Rows(a + b) == Rows(a) + Rows(b)
  {
  }

  lemma RowsAfter(
      slice: seq<Account>, table: seq<AddressRow>, fetched: seq<Address>,
      before: map<Account, seq<Address>>, after: map<Account, seq<Address>>, a: Account)
    requires before.Keys == after.Keys == (set a | a in slice) && a in slice
    requires Linked(slice, table, fetched, before, after)
    ensures Rows(after[a]) == Rows(before[a]) + Share(slice, table, a)
  {
    var part := if Chosen(slice, a) then Naming(fetched, a.id) else [];
    assert after[a] == before[a] + part && Rows(part) == Share(slice, table, a);
    RowsAppend(before[a], part);
  }

  /** After k loads each list has grown by k copies of the account's share. */
  ghost predicate GrownBy(
      slice: seq<Account>, table: seq<AddressRow>, times: nat,
      before: map<Account, seq<Address>>, after: map<Account, seq<Address>>)
    requires before.Keys == after.Keys == (set a | a in slice)
  {
    forall a :: a in slice ==> Rows(after[a]) == Rows(before[a]) + Copies(Share(slice, table, a), times)
  }

  lemma OneMoreCopy(rows: seq<AddressRow>, share: seq<AddressRow>, times: nat)
    ensures rows + Copies(share, times) + share == rows + Copies(share, times + 1)
  {
  }

  lemma GrownOnceMore(
      slice: seq<Account>, table: seq<AddressRow>, times: nat, before: map<Account, seq<Address>>,
      mid: map<Account, seq<Address>>, after: map<Account, seq<Address>>)
    requires before.Keys == mid.Keys == after.Keys == (set a | a in slice)
    requires GrownBy(slice, table, times, before, mid)
    requires forall a :: a in slice ==> Rows(after[a]) == Rows(mid[a]) + Share(slice, table, a)
    ensures GrownBy(slice, table, times + 1, before, after)
  {
    forall a | a in slice
      ensures Rows(after[a]) == Rows(before[a]) + Copies(Share(slice, table, a), times + 1)
    {
      OneMoreCopy(Rows(before[a]), Share(slice, table, a), times);
    }
  }

  /** The slice form appends: loading the same slice k times gives k copies of each list. */
  method LoadRepeatedly(slice: seq<Account>, table: seq<AddressRow>, times: nat)
    requires AccountsUnshared(slice)
    modifies slice`R, Rs(slice)
    ensures GrownBy(slice, table, times, old(Lists(slice)), Lists(slice))
  {
    assert forall a :: a in slice ==> Rows(Lists(slice)[a]) == Rows(Lists(slice)[a]) + [];
    for k := 0 to times
      invariant AccountsUnshared(slice)
      invariant forall r :: r in Rs(slice) ==> fresh(r) || r in old(Rs(slice))
      invariant GrownBy(slice, table, k, old(Lists(slice)), Lists(slice))
    {
      ghost var mid := Lists(slice);
      LoadOnce(slice, table);
      GrownOnceMore(slice, table, k, old(Lists(slice)), mid, Lists(slice));
    }
  }
}
