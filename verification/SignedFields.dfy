/**
 HashAllFields (config/vnpay_config.go:36-54): the string that is signed. The HMAC
 itself is a fixed but arbitrary function.
 */
module SignedFields {
  import opened Text

  const AMP := '&'
  const EQUALS := '='

  // ---------------------------------------------------------------- string order

  /** Go's string order; on UTF-8 text it is the order of the code points. */
  predicate Le(a: string, b: string) {
    a == "" || (b != "" && (a[0] < b[0] || (a[0] == b[0] && Le(a[1..], b[1..]))))
  }

  lemma {:induction false} LeAntisymmetric(a: string, b: string)
    requires Le(a, b) && Le(b, a)
    ensures a == b
  {
    if a != "" && b != "" {
      LeAntisymmetric(a[1..], b[1..]);
      assert a == [a[0]] + a[1..] && b == [b[0]] + b[1..];
    }
  }

  lemma {:induction false} LeTransitive(a: string, b: string, c: string)
    requires Le(a, b) && Le(b, c)
    ensures Le(a, c)
  {
    if a != "" && a[0] == b[0] == c[0] {
      LeTransitive(a[1..], b[1..], c[1..]);
    }
  }

  lemma {:induction false} LeTotal(a: string, b: string)
    ensures Le(a, b) || Le(b, a)
  {
    if a != "" && b != "" && a[0] == b[0] {
      LeTotal(a[1..], b[1..]);
    }
  }

  /** A string is below everything it is a prefix of, and strictly so if that is longer. */
  lemma {:induction false} PrefixesAreBelow(a: string, b: string)
    ensures Le(a, a + b) && (b != "" ==> !Le(a + b, a))
  {
    if a != "" {
      assert (a + b)[0] == a[0] && (a + b)[1..] == a[1..] + b;
      PrefixesAreBelow(a[1..], b);
    } else {
      assert a + b == b;
    }
  }

  /** Where two strings first differ, the smaller character makes the smaller string. */
  lemma {:induction false} FirstDifferenceDecides(p: string, x: char, a: string, y: char, b: string)
    requires x < y
    ensures Le(p + ([x] + a), p + ([y] + b)) && !Le(p + ([y] + b), p + ([x] + a))
  {
    var s, t := p + ([x] + a), p + ([y] + b);
    if p == "" {
      assert s[0] == x && t[0] == y;
    } else {
      assert s[0] == p[0] == t[0] && s[1..] == p[1..] + ([x] + a) && t[1..] == p[1..] + ([y] + b);
      FirstDifferenceDecides(p[1..], x, a, y, b);
    }
  }

  ghost predicate Ordered(keys: seq<string>) {
    forall i, j :: 0 <= i < j < |keys| ==> Le(keys[i], keys[j]) && keys[i] != keys[j]
  }

  ghost predicate NoRepeats(keys: seq<string>) {
    forall i, j :: 0 <= i < j < |keys| ==> keys[i] != keys[j]
  }

  ghost predicate SameElements(a: seq<string>, b: seq<string>) {
    forall k :: k in a <==> k in b
  }

  /** sort.Strings */
  function Sorted(keys: seq<string>): seq<string> {
    if keys == [] then [] else Insert(keys[0], Sorted(keys[1..]))
  }

  function Insert(k: string, keys: seq<string>): seq<string> {
    if keys == [] then [k] else if Le(k, keys[0]) then [k] + keys else [keys[0]] + Insert(k, keys[1..])
  }

  lemma {:induction false} InsertMembers(k: string, keys: seq<string>)
    ensures forall x :: x in Insert(k, keys) <==> x == k || x in keys
  {
    if keys != [] && !Le(k, keys[0]) {
      InsertMembers(k, keys[1..]);
    }
  }

  /** A first key below all the others, put before an ordered list. */
  lemma OrderedCons(first: string, rest: seq<string>)
    requires Ordered(rest) && forall x :: x in rest ==> Le(first, x) && first != x
    ensures Ordered([first] + rest)
  {
    assert forall j :: 0 <= j < |rest| ==> rest[j] in rest;
  }

  lemma FirstIsBelow(k: string, keys: seq<string>)
    requires Ordered(keys) && keys != [] && Le(k, keys[0])
    ensures forall x :: x in keys ==> Le(k, x)
  {
    forall j | 0 <= j < |keys|
      ensures Le(k, keys[j])
    {
      if j > 0 {
        LeTransitive(k, keys[0], keys[j]);
      }
    }
  }

  lemma {:induction false} InsertOrders(k: string, keys: seq<string>)
    requires Ordered(keys) && k !in keys
    ensures Ordered(Insert(k, keys))
  {
    if keys == [] {
    } else if Le(k, keys[0]) {
      FirstIsBelow(k, keys);
      OrderedCons(k, keys);
    } else {
      LeTotal(k, keys[0]);
      InsertOrders(k, keys[1..]);
      InsertMembers(k, keys[1..]);
      OrderedCons(keys[0], Insert(k, keys[1..]));
    }
  }

  lemma {:induction false} SortedOrders(keys: seq<string>)
    requires NoRepeats(keys)
    ensures Ordered(Sorted(keys)) && SameElements(Sorted(keys), keys)
  {
    if keys != [] {
      SortedOrders(keys[1..]);
      assert keys[0] !in keys[1..];
      InsertOrders(keys[0], Sorted(keys[1..]));
      InsertMembers(keys[0], Sorted(keys[1..]));
    }
  }

  /** A set of keys can be listed in order in only one way. */
  lemma {:induction false} OrderedUnique(a: seq<string>, b: seq<string>)
    requires Ordered(a) && Ordered(b) && SameElements(a, b)
    ensures a == b
  {
    assert |b| > 0 ==> b[0] in a;
    if a != [] {
      assert a[0] in b;
      LeAntisymmetric(a[0], b[0]) by {
        var i :| 0 <= i < |a| && a[i] == b[0];
        var j :| 0 <= j < |b| && b[j] == a[0];
        LeReflexive(a[0]);
        LeReflexive(b[0]);
      }
      assert SameElements(a[1..], b[1..]) by {
        forall k
          ensures k in a[1..] <==> k in b[1..]
        {
          assert k in a[1..] <==> k in a && k != a[0];
          assert k in b[1..] <==> k in b && k != b[0];
        }
      }
      OrderedUnique(a[1..], b[1..]);
      assert a == [a[0]] + a[1..] && b == [b[0]] + b[1..];
    }
  }

  lemma {:induction false} LeReflexive(a: string)
    ensures Le(a, a)
  {
    if a != "" {
      LeReflexive(a[1..]);
    }
  }

  // ---------------------------------------------------------------- the signed string

  ghost predicate Covers(fields: map<string, string>, keys: seq<string>) {
    NoRepeats(keys) && forall k :: k in keys <==> k in fields
  }

  function Pair(k: string, v: string): string {
    k + [EQUALS] + v
  }

  /** The writing loop over the keys that are left. */
  function Written(fields: map<string, string>, keys: seq<string>): string
    requires forall k :: k in keys ==> k in fields
  {
    if keys == [] then ""
    else
      var v := fields[keys[0]];
      if v == "" then Written(fields, keys[1..])
      else Pair(keys[0], v) + ((if |keys| > 1 then [AMP] else "") + Written(fields, keys[1..]))
  }

  /** order is the order in which the map happens to be ranged over. */
  method SignedString(fields: map<string, string>, order: seq<string>) returns (sb: string)
    requires Covers(fields, order)
    ensures Covers(fields, Sorted(order)) && Ordered(Sorted(order))
    ensures sb == Written(fields, Sorted(order))
  {
    var keys := [];
    for i := 0 to |order|
      invariant keys == order[..i]
    {
      keys := keys + [order[i]];
    }
    assert keys == order;
    keys := Sorted(keys);
    SortedOrders(order);
    sb := "";
    for i := 0 to |keys|
      invariant sb + Written(fields, keys[i..]) == Written(fields, keys)
    {
      assert keys[i..][1..] == keys[i + 1..];
      var k := keys[i];
      var v := fields[k];
      if v != "" {
        ghost var before := sb;
        sb := sb + Pair(k, v);
        if i < |keys| - 1 {
          sb := sb + [AMP];
        }
        var amp := if i < |keys| - 1 then [AMP] else "";
        assert sb == before + Pair(k, v) + amp;
        Regroup(before, Pair(k, v), amp, Written(fields, keys[i + 1..]));
      }
    }
    assert keys[|keys|..] == [];
  }

  method HashAllFields(fields: map<string, string>, order: seq<string>, secret: string, hmac: (string, string) -> string)
    returns (signature: string)
    requires Covers(fields, order)
    ensures Covers(fields, Sorted(order)) && signature == hmac(secret, Written(fields, Sorted(order)))
  {
    var data := SignedString(fields, order);
    return hmac(secret, data);
  }

  /** The signed string does not depend on the order in which the map is ranged over. */
  lemma OrderIrrelevant(fields: map<string, string>, a: seq<string>, b: seq<string>)
    requires Covers(fields, a) && Covers(fields, b)
    ensures Sorted(a) == Sorted(b)
  {
    SortedOrders(a);
    SortedOrders(b);
    OrderedUnique(Sorted(a), Sorted(b));
  }

  // ---------------------------------------------------------------- its form

  /** The key=value pairs of the non-empty fields, in key order. */
  function Pairs(fields: map<string, string>, keys: seq<string>): seq<string>
    requires forall k :: k in keys ==> k in fields
  {
    if keys == [] then []
    else if fields[keys[0]] == "" then Pairs(fields, keys[1..])
    else [Pair(keys[0], fields[keys[0]])] + Pairs(fields, keys[1..])
  }

  /**
   The pairs of the non-empty fields joined by "&", and one more "&" at the end exactly
   when the last key is empty-valued and some field is not.
   */
  lemma {:induction false} WrittenForm(fields: map<string, string>, keys: seq<string>)
    requires forall k :: k in keys ==> k in fields
    ensures Written(fields, keys) ==
            Join(Pairs(fields, keys), [AMP])
            + (if Pairs(fields, keys) != [] && fields[keys[|keys| - 1]] == "" then [AMP] else "")
  {
    if keys != [] {
      var rest := keys[1..];
      WrittenForm(fields, rest);
      assert rest != [] ==> rest[|rest| - 1] == keys[|keys| - 1];
      if fields[keys[0]] != "" {
        var p, ps := Pair(keys[0], fields[keys[0]]), Pairs(fields, rest);
        assert ([p] + ps)[1..] == ps;
        if ps == [] {
          NoPairsLastEmpty(fields, rest);
        } else {
          var trail := if fields[keys[|keys| - 1]] == "" then [AMP] else "";
          assert Written(fields, rest) == Join(ps, [AMP]) + trail;
          Regroup(p, [AMP], Join(ps, [AMP]), trail);
        }
      }
    }
  }

  lemma {:induction false} NoPairsLastEmpty(fields: map<string, string>, keys: seq<string>)
    requires (forall k :: k in keys ==> k in fields) && Pairs(fields, keys) == []
    ensures Written(fields, keys) == "" && (keys != [] ==> fields[keys[|keys| - 1]] == "")
  {
    if keys != [] {
      NoPairsLastEmpty(fields, keys[1..]);
    }
  }

  // ---------------------------------------------------------------- parsing it back

  /** Up to the first c, and after it; the whole string if there is none. */
  function Cut(s: string, c: char): (r: (string, string))
    ensures |r.0| <= |s| && (s != "" ==> |r.1| < |s|)
  {
    if s == "" then ("", "")
    else if s[0] == c then ("", s[1..])
    else
      var (head, tail) := Cut(s[1..], c);
      ([s[0]] + head, tail)
  }

  function ParseFields(s: string): map<string, string>
    decreases |s|
  {
    if s == "" then map[]
    else
      var (piece, rest) := Cut(s, AMP);
      var fields := ParseFields(rest);
      if piece == "" then fields
      else
        var (k, v) := Cut(piece, EQUALS);
        fields[k := v]
  }

  lemma {:induction false} CutAppend(a: string, c: char, rest: string)
    requires c !in a
    ensures Cut(a + ([c] + rest), c) == (a, rest)
    ensures Cut(a, c) == (a, "")
  {
    if a == "" {
      assert a + ([c] + rest) == [c] + rest;
    } else {
      var s := a + ([c] + rest);
      assert s[1..] == a[1..] + ([c] + rest);
      CutAppend(a[1..], c, rest);
      assert [a[0]] + a[1..] == a;
    }
  }

  /** Keys without "=" and "&", values without "&". */
  ghost predicate Separable(fields: map<string, string>) {
    forall k :: k in fields ==> EQUALS !in k && AMP !in k && AMP !in fields[k]
  }

  function NonEmpty(fields: map<string, string>): map<string, string> {
    map k | k in fields && fields[k] != "" :: fields[k]
  }

  function Restricted(fields: map<string, string>, keys: seq<string>): map<string, string> {
    map k | k in fields && k in keys && fields[k] != "" :: fields[k]
  }

  lemma PieceParses(fields: map<string, string>, k: string, rest: string)
    requires Separable(fields) && k in fields
    ensures ParseFields(Pair(k, fields[k]) + ([AMP] + rest)) == ParseFields(rest)[k := fields[k]]
    ensures ParseFields(Pair(k, fields[k])) == map[k := fields[k]]
  {
    var p, v := Pair(k, fields[k]), fields[k];
    assert AMP !in p;
    CutAppend(p, AMP, rest);
    assert p == k + ([EQUALS] + v);
    CutAppend(k, EQUALS, v);
    assert ParseFields("") == map[];
  }

  lemma RestrictedStep(fields: map<string, string>, keys: seq<string>)
    requires keys != [] && keys[0] in fields
    ensures Restricted(fields, keys) ==
            if fields[keys[0]] == "" then Restricted(fields, keys[1..])
            else Restricted(fields, keys[1..])[keys[0] := fields[keys[0]]]
  {
    assert keys == [keys[0]] + keys[1..];
  }

  /** Parsing the written keys gives back their non-empty fields. */
  lemma {:induction false} WrittenParses(fields: map<string, string>, keys: seq<string>)
    requires Separable(fields) && NoRepeats(keys) && forall k :: k in keys ==> k in fields
    ensures ParseFields(Written(fields, keys)) == Restricted(fields, keys)
  {
    if keys == [] {
      assert Restricted(fields, keys) == map[];
    } else {
      WrittenParses(fields, keys[1..]);
      RestrictedStep(fields, keys);
      if fields[keys[0]] != "" {
        var rest := Written(fields, keys[1..]);
        PieceParses(fields, keys[0], rest);
        if |keys| == 1 {
          assert Pair(keys[0], fields[keys[0]]) + ("" + "") == Pair(keys[0], fields[keys[0]]);
        }
      }
    }
  }

  /** The signed string determines the non-empty fields: it parses back to them. */
  lemma SignedStringParses(fields: map<string, string>, order: seq<string>)
    requires Separable(fields) && Covers(fields, order)
    ensures Covers(fields, Sorted(order)) && ParseFields(Written(fields, Sorted(order))) == NonEmpty(fields)
  {
    SortedOrders(order);
    WrittenParses(fields, Sorted(order));
    assert Restricted(fields, Sorted(order)) == NonEmpty(fields);
  }

  /** Field sets that sign the same string have the same non-empty fields. */
  lemma SameStringSameFields(f: map<string, string>, g: map<string, string>, a: seq<string>, b: seq<string>)
    requires Separable(f) && Separable(g) && Covers(f, a) && Covers(g, b)
    requires Covers(f, Sorted(a)) && Covers(g, Sorted(b)) && Written(f, Sorted(a)) == Written(g, Sorted(b))
    ensures NonEmpty(f) == NonEmpty(g)
  {
    SignedStringParses(f, a);
    SignedStringParses(g, b);
  }
}
