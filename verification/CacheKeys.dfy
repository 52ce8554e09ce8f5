/**
 The keys of the prepared-statement caches (models/boil_types.go:34-52 and the
 in-line key of Account.Upsert, models/account.go:2226-2252).

 A key writes column names one after the other with no separator, and some
 names are prefixes of others ("email" / "emailVerified"). Two different calls
 therefore share a cache slot unless the column names form a uniquely decodable
 code. The test used here is the dangling-suffix one: collect what is left over
 whenever a codeword is a prefix of another, close the collection under taking
 leftovers again, and check that nothing is ever left over exactly.
 */
module CacheKeys {
  import opened Text

  /** The separator of a key; no column name contains it. */
  const DOT := '.'

  /** boil.Columns: how the column list is to be read, and the list. */
  datatype Columns = Columns(kind: int, cols: seq<string>)

  // ---------------------------------------------------------------- codes

  /** What remains of a word after one of its prefixes. */
  function Leftover(word: string, prefix: string): string
    requires prefix <= word
  {
    word[|prefix|..]
  }

  /** d collects all dangling suffixes of the code, and the empty one is not among them. */
  ghost predicate Dangling(code: set<string>, d: set<string>) {
    && "" !in code && "" !in d
    && (forall a, b {:trigger Leftover(b, a)} :: a in code && b in code && a < b ==> Leftover(b, a) in d)
    && (forall s, c {:trigger Leftover(c, s)} :: s in d && c in code && s <= c ==> Leftover(c, s) in d)
    && (forall s, c {:trigger Leftover(s, c)} :: s in d && c in code && c <= s ==> Leftover(s, c) in d)
  }

  ghost predicate Words(code: set<string>, xs: seq<string>) {
    forall i :: 0 <= i < |xs| ==> xs[i] in code
  }

  /** A dangling suffix can never be absorbed by more codewords on either side. */
  lemma {:induction false} DanglingNeverCloses(
      code: set<string>, d: set<string>, s: string, xs: seq<string>, ys: seq<string>)
    requires Dangling(code, d) && s in d && Words(code, xs) && Words(code, ys)
    ensures s + Concat(xs) != Concat(ys)
    decreases |xs| + |ys|
  {
    if s + Concat(xs) == Concat(ys) && ys != [] {
      var c, u, v := ys[0], Concat(xs), Concat(ys[1..]);
      if |s| <= |c| {
        CutTwice(s, u, c, v);
        DanglingNeverCloses(code, d, Leftover(c, s), ys[1..], xs);
      } else {
        CutTwice(c, v, s, u);
        DanglingNeverCloses(code, d, Leftover(s, c), xs, ys[1..]);
      }
    }
  }

  /** The dangling-suffix theorem: such a code is uniquely decodable. */
  lemma {:induction false} UniquelyDecodable(code: set<string>, d: set<string>, xs: seq<string>, ys: seq<string>)
    requires Dangling(code, d) && Words(code, xs) && Words(code, ys)
    requires Concat(xs) == Concat(ys)
    ensures xs == ys
  {
    if xs != [] && ys != [] {
      var a, b, u, v := xs[0], ys[0], Concat(xs[1..]), Concat(ys[1..]);
      if |a| < |b| {
        CutTwice(a, u, b, v);
        DanglingNeverCloses(code, d, Leftover(b, a), ys[1..], xs[1..]);
      } else if |b| < |a| {
        CutTwice(b, v, a, u);
        DanglingNeverCloses(code, d, Leftover(a, b), xs[1..], ys[1..]);
      } else {
        CutTwice(a, u, b, v);
        assert a == b && u == v;
        UniquelyDecodable(code, d, xs[1..], ys[1..]);
        assert xs == [a] + xs[1..] && ys == [b] + ys[1..];
      }
    }
  }

  /** A name that can follow a numeral and precede a dot. */
  predicate Writable(name: string) {
    name != "" && !IsNumeralChar(name[0]) && DOT !in name
  }

  /** What a table's column names must satisfy for the keys to be sound. */
  ghost predicate GoodNames(code: set<string>, d: set<string>) {
    && Dangling(code, d)
    && (forall c :: c in code ==> Writable(c))
  }

  // ---------------------------------------------------------------- keys

  /** A column list as both keys write it. */
  function Numbered(columns: Columns): string {
    Itoa(columns.kind) + Concat(columns.cols)
  }

  /** makeCacheKey, as a value. */
  function CacheKey(columns: Columns, nzDefaults: seq<string>): string {
    Numbered(columns) + (if nzDefaults != [] then [DOT] + Concat(nzDefaults) else "")
  }

  /** The loop that writes a list of names into the key buffer. */
  method WriteWords(start: string, words: seq<string>) returns (buf: string)
    ensures buf == start + Concat(words)
  {
    buf := start;
    for i := 0 to |words|
      invariant buf == start + Concat(words[..i])
    {
      buf := buf + words[i];
      assert words[..i + 1] == words[..i] + [words[i]];
      ConcatAppend(words[..i], [words[i]]);
    }
    assert words[..|words|] == words;
  }

  method MakeCacheKey(columns: Columns, nzDefaults: seq<string>) returns (str: string)
    ensures str == CacheKey(columns, nzDefaults)
  {
    var buf := Itoa(columns.kind);
    buf := WriteWords(buf, columns.cols);
    if |nzDefaults| != 0 {
      ghost var before := buf;
      buf := buf + [DOT];
      buf := WriteWords(buf, nzDefaults);
      assert buf == before + ([DOT] + Concat(nzDefaults));
    }
    return buf;
  }

  /** The key of the upsert cache, as a value. */
  function UpsertKey(
      updateOnConflict: bool, conflict: seq<string>, update: Columns, insert: Columns, nzDefaults: seq<string>): string
  {
    [if updateOnConflict then 't' else 'f', DOT]
    + (Concat(conflict) + ([DOT]
    + (Numbered(update) + ([DOT]
    + (Numbered(insert) + ([DOT]
    + Concat(nzDefaults)))))))
  }

  method MakeUpsertKey(
      updateOnConflict: bool, conflict: seq<string>, update: Columns, insert: Columns, nzDefaults: seq<string>)
    returns (key: string)
    ensures key == UpsertKey(updateOnConflict, conflict, update, insert, nzDefaults)
  {
    var buf: string := if updateOnConflict then ['t'] else ['f'];
    buf := buf + [DOT];
    ghost var start := buf;
    buf := WriteWords(buf, conflict);
    buf := buf + [DOT];
    buf := buf + Itoa(update.kind);
    buf := WriteWords(buf, update.cols);
    buf := buf + [DOT];
    buf := buf + Itoa(insert.kind);
    buf := WriteWords(buf, insert.cols);
    buf := buf + [DOT];
    buf := WriteWords(buf, nzDefaults);
    RegroupFields(start, Concat(conflict), Itoa(update.kind), Concat(update.cols),
                  Itoa(insert.kind), Concat(insert.cols), Concat(nzDefaults), [DOT]);
    return buf;
  }

  lemma RegroupFields(
      s: string, c: string, un: string, uc: string, ii: string, ic: string, n: string, dot: string)
    ensures s + c + dot + un + uc + dot + ii + ic + dot + n ==
            s + (c + (dot + ((un + uc) + (dot + ((ii + ic) + (dot + n))))))
  {
    var l := s + c + dot + un + uc + dot;
    Regroup(l, ii, ic, dot + n);
    Assoc(l + ii + ic, dot, n);
    Assoc(ii, ic, dot + n);
    var r := (ii + ic) + (dot + n);
    var m := s + c + dot;
    Regroup(m, un, uc, dot + r);
    Assoc(m + un + uc, dot, r);
    Assoc(un, uc, dot + r);
    Regroup(s, c, dot, (un + uc) + (dot + r));
  }

  // ---------------------------------------------------------------- injectivity

  ghost predicate NoDot(s: string) {
    forall i :: 0 <= i < |s| ==> s[i] != DOT
  }

  /** A dot-free field ends at its dot, or at the end of the key. */
  lemma FieldIsUnique(a: string, x: string, b: string, y: string)
    requires NoDot(a) && NoDot(b) && (x == "" || x[0] == DOT) && (y == "" || y[0] == DOT)
    requires a + x == b + y
    ensures a == b && x == y
  {
    SplitIsUnique(c => c != DOT, a, x, b, y);
  }

  lemma {:induction false} ConcatHasNoDot(code: set<string>, d: set<string>, xs: seq<string>)
    requires GoodNames(code, d) && Words(code, xs)
    ensures NoDot(Concat(xs))
    ensures StartsOutside(IsNumeralChar, Concat(xs))
  {
    if xs != [] {
      assert xs[0] in code;
      ConcatHasNoDot(code, d, xs[1..]);
    }
  }

  /** A numeral followed by column names can be read back. */
  lemma NumberedWordsInjective(
      code: set<string>, d: set<string>, a: Columns, b: Columns)
    requires GoodNames(code, d) && Words(code, a.cols) && Words(code, b.cols)
    requires Numbered(a) == Numbered(b)
    ensures a == b
  {
    ItoaIsNumeral(a.kind);
    ItoaIsNumeral(b.kind);
    ConcatHasNoDot(code, d, a.cols);
    ConcatHasNoDot(code, d, b.cols);
    SplitIsUnique(IsNumeralChar, Itoa(a.kind), Concat(a.cols), Itoa(b.kind), Concat(b.cols));
    ItoaInjective(a.kind, b.kind);
    UniquelyDecodable(code, d, a.cols, b.cols);
  }

  lemma NumberedWordsHaveNoDot(code: set<string>, d: set<string>, a: Columns)
    requires GoodNames(code, d) && Words(code, a.cols)
    ensures NoDot(Numbered(a))
  {
    ItoaIsNumeral(a.kind);
    ConcatHasNoDot(code, d, a.cols);
  }

  lemma NumberedFieldInjective(
      code: set<string>, d: set<string>, a: Columns, x: string, b: Columns, y: string)
    requires GoodNames(code, d) && Words(code, a.cols) && Words(code, b.cols)
    requires (x == "" || x[0] == DOT) && (y == "" || y[0] == DOT)
    requires Numbered(a) + x == Numbered(b) + y
    ensures a == b && x == y
  {
    NumberedWordsHaveNoDot(code, d, a);
    NumberedWordsHaveNoDot(code, d, b);
    FieldIsUnique(Numbered(a), x, Numbered(b), y);
    NumberedWordsInjective(code, d, a, b);
  }

  /** makeCacheKey is injective on calls whose columns and defaults are columns of the table. */
  lemma CacheKeyInjective(
      code: set<string>, d: set<string>, a: Columns, m: seq<string>, b: Columns, n: seq<string>)
    requires GoodNames(code, d)
    requires Words(code, a.cols) && Words(code, m) && Words(code, b.cols) && Words(code, n)
    requires CacheKey(a, m) == CacheKey(b, n)
    ensures a == b && m == n
  {
    var x := if m != [] then [DOT] + Concat(m) else "";
    var y := if n != [] then [DOT] + Concat(n) else "";
    NumberedFieldInjective(code, d, a, x, b, y);
    if m != [] {
      assert x[1..] == Concat(m) && y[1..] == Concat(n);
      UniquelyDecodable(code, d, m, n);
    }
  }

  /** The upsert key is injective in all its five parts. */
  lemma UpsertKeyInjective(
      code: set<string>, d: set<string>,
      t: bool, c: seq<string>, u: Columns, i: Columns, m: seq<string>,
      t': bool, c': seq<string>, u': Columns, i': Columns, m': seq<string>)
    requires GoodNames(code, d)
    requires Words(code, c) && Words(code, u.cols) && Words(code, i.cols) && Words(code, m)
    requires Words(code, c') && Words(code, u'.cols) && Words(code, i'.cols) && Words(code, m')
    requires UpsertKey(t, c, u, i, m) == UpsertKey(t', c', u', i', m')
    ensures t == t' && c == c' && u == u' && i == i' && m == m'
  {
    var z, z' := [DOT] + Concat(m), [DOT] + Concat(m');
    var y, y' := [DOT] + (Numbered(i) + z), [DOT] + (Numbered(i') + z');
    var x, x' := [DOT] + (Numbered(u) + y), [DOT] + (Numbered(u') + y');
    var k, k' := UpsertKey(t, c, u, i, m), UpsertKey(t', c', u', i', m');
    assert k[2..] == Concat(c) + x && k'[2..] == Concat(c') + x';
    assert (k[0] == 't') == t && (k'[0] == 't') == t';
    ConcatHasNoDot(code, d, c);
    ConcatHasNoDot(code, d, c');
    FieldIsUnique(Concat(c), x, Concat(c'), x');
    UniquelyDecodable(code, d, c, c');
    assert x[1..] == Numbered(u) + y && x'[1..] == Numbered(u') + y';
    NumberedFieldInjective(code, d, u, y, u', y');
    assert y[1..] == Numbered(i) + z && y'[1..] == Numbered(i') + z';
    NumberedFieldInjective(code, d, i, z, i', z');
    assert z[1..] == Concat(m) && z'[1..] == Concat(m');
    UniquelyDecodable(code, d, m, m');
  }

  // ---------------------------------------------------------------- exactly which names are sound

  /** Different lists of names never run together into one string. */
  ghost predicate Decodable(code: set<string>) {
    forall xs, ys {:trigger Concat(xs), Concat(ys)} :: Words(code, xs) && Words(code, ys) && Concat(xs) == Concat(ys) ==> xs == ys
  }

  /** A string that two lists with different first words differ by. */
  ghost predicate Gap(code: set<string>, s: string) {
    exists xs, ys :: GapOf(code, s, xs, ys)
  }

  ghost predicate GapOf(code: set<string>, s: string, xs: seq<string>, ys: seq<string>) {
    Words(code, xs) && Words(code, ys) && xs != [] && ys != [] && xs[0] != ys[0] && Concat(xs) + s == Concat(ys)
  }

  function Suffixes(code: set<string>): set<string> {
    set c, n | c in code && 0 <= n < |c| :: c[n..]
  }

  /** The non-empty codeword suffixes that are gaps: the least collection of dangling suffixes. */
  ghost function Gaps(code: set<string>): set<string> {
    set s | s in Suffixes(code) && Gap(code, s)
  }

  lemma SuffixOfSuffix(code: set<string>, s: string, n: nat)
    requires s in Suffixes(code) && n < |s|
    ensures s[n..] in Suffixes(code)
  {
    var c, m :| c in code && 0 <= m < |c| && s == c[m..];
    assert s[n..] == c[m + n..];
  }

  lemma {:induction false} ConcatOne(xs: seq<string>, c: string)
    ensures Concat(xs + [c]) == Concat(xs) + c
  {
    ConcatAppend(xs, [c]);
    assert [c][1..] == [] && c + "" == c;
  }

  /** A codeword that begins like a gap leaves a gap. */
  lemma GapThenWord(code: set<string>, s: string, c: string)
    requires Decodable(code) && "" !in code && s in Gaps(code) && c in code && s <= c
    ensures Leftover(c, s) in Gaps(code)
  {
    var xs, ys :| GapOf(code, s, xs, ys);
    var t, zs := Leftover(c, s), xs + [c];
    assert s + t == c;
    ConcatOne(xs, c);
    Assoc(Concat(xs), s, t);
    assert Concat(ys) + t == Concat(zs) && zs[0] == xs[0];
    assert t != "" by {
      assert Concat(ys) + "" == Concat(ys);
    }
    assert GapOf(code, t, ys, zs);
    assert t == c[|s|..] && |s| < |c|;
  }

  /** A gap that begins with a codeword leaves a gap. */
  lemma WordInGap(code: set<string>, s: string, c: string)
    requires Decodable(code) && "" !in code && s in Gaps(code) && c in code && c <= s
    ensures Leftover(s, c) in Gaps(code)
  {
    var xs, ys :| GapOf(code, s, xs, ys);
    var t, zs := Leftover(s, c), xs + [c];
    assert c + t == s;
    ConcatOne(xs, c);
    Assoc(Concat(xs), c, t);
    assert Concat(zs) + t == Concat(ys) && zs[0] == xs[0];
    assert t != "" by {
      assert Concat(zs) + "" == Concat(zs);
    }
    assert GapOf(code, t, zs, ys);
    SuffixOfSuffix(code, s, |c|);
  }

  /** A codeword that begins another leaves a gap. */
  lemma WordInWord(code: set<string>, a: string, b: string)
    requires a in code && b in code && a < b
    ensures Leftover(b, a) in Gaps(code)
  {
    var t := Leftover(b, a);
    ConcatOne([], a);
    ConcatOne([], b);
    assert [] + [a] == [a] && [] + [b] == [b] && a + t == b;
    assert GapOf(code, t, [a], [b]);
    assert t == b[|a|..];
  }

  /** The converse of the dangling-suffix theorem: the gaps of a decodable code are its dangling suffixes. */
  lemma GapsDangle(code: set<string>)
    requires Decodable(code) && "" !in code
    ensures Dangling(code, Gaps(code))
  {
    var d := Gaps(code);
    forall a, b | a in code && b in code && a < b
      ensures Leftover(b, a) in d
    {
      WordInWord(code, a, b);
    }
    forall s, c | s in d && c in code && s <= c
      ensures Leftover(c, s) in d
    {
      GapThenWord(code, s, c);
    }
    forall s, c | s in d && c in code && c <= s
      ensures Leftover(s, c) in d
    {
      WordInGap(code, s, c);
    }
  }

  /** The dangling-suffix test is exact. */
  lemma DecodableIff(code: set<string>)
    requires "" !in code
    ensures Decodable(code) <==> exists d :: Dangling(code, d)
  {
    if Decodable(code) {
      GapsDangle(code);
    }
    forall d, xs, ys | Dangling(code, d) && Words(code, xs) && Words(code, ys) && Concat(xs) == Concat(ys)
      ensures xs == ys
    {
      UniquelyDecodable(code, d, xs, ys);
    }
  }

  ghost predicate SameKey(code: set<string>, a: Columns, m: seq<string>, b: Columns, n: seq<string>) {
    Words(code, a.cols) && Words(code, m) && Words(code, b.cols) && Words(code, n) && CacheKey(a, m) == CacheKey(b, n)
  }

  /** makeCacheKey tells all calls over a set of names apart. */
  ghost predicate KeyInjective(code: set<string>) {
    forall a, m, b, n :: SameKey(code, a, m, b, n) ==> a == b && m == n
  }

  /** makeCacheKey tells all calls over a set of names apart exactly when the names pass the dangling-suffix test. */
  lemma KeyInjectiveIff(code: set<string>)
    requires forall c :: c in code ==> Writable(c)
    ensures KeyInjective(code) <==> exists d :: Dangling(code, d)
  {
    DecodableIff(code);
    if KeyInjective(code) {
      forall xs, ys | Words(code, xs) && Words(code, ys) && Concat(xs) == Concat(ys)
        ensures xs == ys
      {
        assert SameKey(code, Columns(0, xs), [], Columns(0, ys), []);
      }
    }
    forall d, a, m, b, n | Dangling(code, d) && SameKey(code, a, m, b, n)
      ensures a == b && m == n
    {
      CacheKeyInjective(code, d, a, m, b, n);
    }
  }

  // ---------------------------------------------------------------- the two tables

  const ACCOUNT_COLUMNS: set<string> :=
    {"accountID", "username", "password", "phoneNumber", "email", "fullName",
     "gender", "avatar", "status", "role", "emailVerified"}

  const ADDRESS_COLUMNS: set<string> :=
    {"addressID", "phoneNumber", "fullName", "address", "specificAddress", "status",
     "provinceID", "districtID", "wardID", "deleteStatus", "accountID", "wardCode"}

  /** If t is the only leftover of the code and no codeword begins like t, the names are good. */
  lemma OneDanglingSuffix(code: set<string>, t: string)
    requires t != ""
    requires forall c :: c in code ==> c != "" && !IsNumeralChar(c[0]) && c[0] != t[0] && NoDot(c)
    requires forall a, b :: a in code && b in code && a < b ==> b[|a|..] == t
    ensures GoodNames(code, {t})
  {
    forall c | c in code
      ensures !(t <= c) && !(c <= t) && DOT !in c
    {
      assert c[0] != t[0];
    }
  }

  lemma AccountColumnShape(c: string)
    requires c in ACCOUNT_COLUMNS
    ensures |c| >= 4 && !IsNumeralChar(c[0]) && c[0] != 'V' && NoDot(c)
  {
  }

  lemma AccountColumnPrefixes(a: string, b: string)
    requires a in ACCOUNT_COLUMNS && b in ACCOUNT_COLUMNS && a < b
    ensures b[|a|..] == "Verified"
  {
    AccountColumnShape(a);
    assert a[0] == b[0] && a[1] == b[1];
  }

  /** "email" < "emailVerified" is the only prefix pair, and "Verified" leads nowhere. */
  lemma AccountColumnsDecodable()
    ensures GoodNames(ACCOUNT_COLUMNS, {"Verified"})
  {
    forall c | c in ACCOUNT_COLUMNS
      ensures c != "" && !IsNumeralChar(c[0]) && c[0] != 'V' && NoDot(c)
    {
      AccountColumnShape(c);
    }
    forall a, b | a in ACCOUNT_COLUMNS && b in ACCOUNT_COLUMNS && a < b
      ensures b[|a|..] == "Verified"
    {
      AccountColumnPrefixes(a, b);
    }
    OneDanglingSuffix(ACCOUNT_COLUMNS, "Verified");
  }

  lemma AddressColumnShape(c: string)
    requires c in ADDRESS_COLUMNS
    ensures |c| >= 6 && !IsNumeralChar(c[0]) && c[0] != 'I' && NoDot(c)
  {
  }

  lemma AddressColumnPrefixes(a: string, b: string)
    requires a in ADDRESS_COLUMNS && b in ADDRESS_COLUMNS && a < b
    ensures b[|a|..] == "ID"
  {
    AddressColumnShape(a);
    assert a[0] == b[0] && a[1] == b[1] && a[4] == b[4];
  }

  /** "address" < "addressID" is the only prefix pair, and "ID" leads nowhere. */
  lemma AddressColumnsDecodable()
    ensures GoodNames(ADDRESS_COLUMNS, {"ID"})
  {
    forall c | c in ADDRESS_COLUMNS
      ensures c != "" && !IsNumeralChar(c[0]) && c[0] != 'I' && NoDot(c)
    {
      AddressColumnShape(c);
    }
    forall a, b | a in ADDRESS_COLUMNS && b in ADDRESS_COLUMNS && a < b
      ensures b[|a|..] == "ID"
    {
      AddressColumnPrefixes(a, b);
    }
    OneDanglingSuffix(ADDRESS_COLUMNS, "ID");
  }

  /**
   Outside the table's columns the key is ambiguous: a whitelist naming the two
   non-columns "emailV" and "erified" has the key of one naming "emailVerified".
   */
  lemma KeyAmbiguousOutsideColumns()
    ensures CacheKey(Columns(2, ["emailV", "erified"]), []) == CacheKey(Columns(2, ["emailVerified"]), [])
    ensures !Words(ACCOUNT_COLUMNS, ["emailV", "erified"])
  {
    assert Concat(["emailV", "erified"]) == "emailV" + Concat(["erified"]) == "emailV" + "erified";
    assert ["emailV", "erified"][0] !in ACCOUNT_COLUMNS;
  }
}
