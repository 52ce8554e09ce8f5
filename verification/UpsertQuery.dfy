/**
 The upsert statement builder (models/psql_upsert.go:34-99) as a printer, and a
 parser that undoes it.

 Identifiers are quoted by strmangle.IdentQuote, which is not part of this
 model; for a plain column name it puts the name between double quotes, and the
 theorems below are about plain names only.
 */
module UpsertQuery {
  import opened Text
  import opened Wrappers

  const QUOTE := '"'

  /** UpsertOptions after all option functions have run; "" means not set. */
  datatype UpsertOptions = UpsertOptions(conflictTarget: string, updateSet: string)

  const NO_OPTIONS := UpsertOptions("", "")

  /** What an upsert statement says. */
  datatype Action = DoNothing | DoUpdate(columns: seq<string>)
  datatype Upsert = Upsert(
    table: string, columns: seq<string>, binds: seq<nat>, conflict: seq<string>, action: Action, returning: seq<string>)

  ghost predicate Plain(name: string) {
    name != "" && QUOTE !in name && '.' !in name
  }

  ghost predicate AllPlain(names: seq<string>) {
    forall i :: 0 <= i < |names| ==> Plain(names[i])
  }

  // ---------------------------------------------------------------- printer

  function IdentQuote(name: string): string {
    [QUOTE] + name + [QUOTE]
  }

  function IdentQuoteSlice(names: seq<string>): seq<string> {
    if names == [] then [] else [IdentQuote(names[0])] + IdentQuoteSlice(names[1..])
  }

  /** strmangle.Placeholders(true, count, from, 1): "$1,$2,...". */
  function Placeholders(count: nat, from: nat): string {
    if count == 0 then ""
    else if count == 1 then "$" + Itoa(from)
    else "$" + Itoa(from) + "," + Placeholders(count - 1, from + 1)
  }

  function Assignment(name: string): string {
    IdentQuote(name) + (" = EXCLUDED." + IdentQuote(name))
  }

  /** The update loop: empty names are skipped, and a comma goes before every name but the one at index 0. */
  function SetItems(update: seq<string>, atStart: bool): string {
    if update == [] then ""
    else if update[0] == "" then SetItems(update[1..], false)
    else (if atStart then "" else ",") + (Assignment(update[0]) + SetItems(update[1..], false))
  }

  function ColumnsPart(whitelist: seq<string>, sep: string): string {
    if |whitelist| != 0 then
      "(" + (Join(IdentQuoteSlice(whitelist), sep) + (") VALUES (" + (Placeholders(|whitelist|, 1) + ")")))
    else
      "DEFAULT VALUES"
  }

  function ConflictPart(conflict: seq<string>, opts: UpsertOptions): string {
    if opts.conflictTarget != "" then opts.conflictTarget
    else if |conflict| != 0 then "(" + (Join(IdentQuoteSlice(conflict), ", ") + ")")
    else ""
  }

  function ActionPart(updateOnConflict: bool, update: seq<string>, opts: UpsertOptions): string {
    if !updateOnConflict || |update| == 0 then "DO NOTHING"
    else "DO UPDATE SET " + (if opts.updateSet != "" then opts.updateSet else SetItems(update, true))
  }

  function ReturningPart(ret: seq<string>, sep: string): string {
    if |ret| != 0 then " RETURNING " + Join(IdentQuoteSlice(ret), sep) else ""
  }

  /** The whole statement, as a value. */
  function UpsertStatement(
      tableName: string, updateOnConflict: bool, ret: seq<string>, update: seq<string>,
      conflict: seq<string>, whitelist: seq<string>, opts: UpsertOptions): string
  {
    "INSERT INTO " + (tableName + (" " + (ColumnsPart(whitelist, ", ") + (" ON CONFLICT " +
    (ConflictPart(conflict, opts) + (" " + (ActionPart(updateOnConflict, update, opts) + ReturningPart(ret, ", "))))))))
  }

  /** The loop over the update names (psql_upsert.go:78-89). */
  method WriteSetItems(start: string, update: seq<string>) returns (buf: string)
    ensures buf == start + SetItems(update, true)
  {
    buf := start;
    for i := 0 to |update|
      invariant buf + SetItems(update[i..], i == 0) == start + SetItems(update, true)
    {
      ghost var before, rest := buf, SetItems(update[i + 1..], false);
      assert update[i..][1..] == update[i + 1..];
      var v := update[i];
      if |v| != 0 {
        if i != 0 {
          buf := buf + ",";
        }
        var quoted := IdentQuote(v);
        ghost var comma := if i == 0 then "" else ",";
        ghost var mid := buf;
        assert mid == before + comma;
        buf := buf + quoted;
        buf := buf + " = EXCLUDED.";
        buf := buf + quoted;
        Regroup(mid, quoted, " = EXCLUDED.", quoted);
        Regroup(before, comma, Assignment(v), rest);
      }
    }
    assert update[|update|..] == [];
  }

  method WriteConflict(start: string, conflict: seq<string>, opts: UpsertOptions) returns (buf: string)
    ensures buf == start + ConflictPart(conflict, opts)
  {
    buf := start;
    if opts.conflictTarget != "" {
      buf := buf + opts.conflictTarget;
    } else if |conflict| != 0 {
      buf := buf + "(";
      buf := buf + Join(IdentQuoteSlice(conflict), ", ");
      buf := buf + ")";
      Regroup(start, "(", Join(IdentQuoteSlice(conflict), ", "), ")");
    }
  }

  method WriteAction(start: string, updateOnConflict: bool, update: seq<string>, opts: UpsertOptions)
    returns (buf: string)
    ensures buf == start + ActionPart(updateOnConflict, update, opts)
  {
    buf := start;
    if !updateOnConflict || |update| == 0 {
      buf := buf + "DO NOTHING";
    } else {
      buf := buf + "DO UPDATE SET ";
      ghost var items := if opts.updateSet != "" then opts.updateSet else SetItems(update, true);
      if opts.updateSet != "" {
        buf := buf + opts.updateSet;
      } else {
        buf := WriteSetItems(buf, update);
      }
      Assoc(start, "DO UPDATE SET ", items);
    }
  }

  /** buildUpsertQueryPostgres: the same statement, built by successive buffer writes. */
  method BuildUpsertQuery(
      tableName: string, updateOnConflict: bool, ret: seq<string>, update: seq<string>,
      conflict: seq<string>, whitelist: seq<string>, opts: UpsertOptions)
    returns (query: string)
    ensures query == UpsertStatement(tableName, updateOnConflict, ret, update, conflict, whitelist, opts)
  {
    var columns := "DEFAULT VALUES";
    if |whitelist| != 0 {
      columns := "(" + (Join(IdentQuoteSlice(whitelist), ", ") + (") VALUES (" + (Placeholders(|whitelist|, 1) + ")")));
    }
    var buf := "INSERT INTO " + tableName + " " + columns + " ON CONFLICT ";
    buf := WriteConflict(buf, conflict, opts);
    buf := buf + " ";
    buf := WriteAction(buf, updateOnConflict, update, opts);
    ghost var action := ActionPart(updateOnConflict, update, opts);
    ghost var before := buf;
    if |ret| != 0 {
      buf := buf + " RETURNING ";
      buf := buf + Join(IdentQuoteSlice(ret), ", ");
      Assoc(before, " RETURNING ", Join(IdentQuoteSlice(ret), ", "));
    }
    assert buf == before + ReturningPart(ret, ", ");
    RegroupAll("INSERT INTO ", tableName, " ", columns, " ON CONFLICT ", ConflictPart(conflict, opts), " ",
               action, ReturningPart(ret, ", "));
    return buf;
  }

  lemma RegroupAll(
      a: string, b: string, c: string, d: string, e: string, f: string, g: string, h: string, i: string)
    ensures a + b + c + d + e + f + g + h + i == a + (b + (c + (d + (e + (f + (g + (h + i)))))))
  {
    Regroup(a, b, c, d);
    Regroup(a, b + (c + d), e, f);
    Regroup(b, c, d, e + f);
    Regroup(a + (b + (c + d) + (e + f)), g, h, i);
    var x := c + (d + (e + f));
    assert b + (c + d) + (e + f) == b + x;
    assert x + (g + (h + i)) == c + (d + (e + (f + (g + (h + i)))));
  }

  // ---------------------------------------------------------------- parser

  function Expect(prefix: string, s: string): Option<string> {
    if prefix <= s then Some(s[|prefix|..]) else None
  }

  /** Everything before the next quote, and everything after it. */
  function UntilQuote(s: string): (r: Option<(string, string)>)
    ensures r.Some? ==> |r.value.1| < |s|
  {
    if s == "" then None
    else if s[0] == QUOTE then Some(("", s[1..]))
    else
      var (name, rest) :- UntilQuote(s[1..]);
      Some(([s[0]] + name, rest))
  }

  function ParseName(s: string): (r: Option<(string, string)>)
    ensures r.Some? ==> |r.value.1| < |s|
  {
    var body :- Expect([QUOTE], s);
    UntilQuote(body)
  }

  /** Quoted names with a separator between them. */
  function ParseNames(s: string, sep: string): Option<(seq<string>, string)>
    decreases |s|
  {
    var (name, rest) :- ParseName(s);
    if sep <= rest then
      var (names, end) :- ParseNames(rest[|sep|..], sep);
      Some(([name] + names, end))
    else
      Some(([name], rest))
  }

  /** The numbers of a list of placeholders: $3,$4,... */
  function ParseBinds(s: string): Option<(seq<nat>, string)>
    decreases |s|
  {
    var s1 :- Expect("$", s);
    var (digits, rest) := TakeDigits(s1);
    if digits == "" then None
    else if "," <= rest then
      var (binds, end) :- ParseBinds(rest[1..]);
      Some(([Value(digits)] + binds, end))
    else
      Some(([Value(digits)], rest))
  }

  /** One column set to the value proposed for that same column. */
  function ParseAssignment(s: string): (r: Option<(string, string)>)
    ensures r.Some? ==> |r.value.1| < |s|
  {
    var (name, rest) :- ParseName(s);
    var source :- Expect(" = EXCLUDED.", rest);
    var (again, rest') :- ParseName(source);
    if again == name then Some((name, rest')) else None
  }

  function ParseAssignments(s: string): Option<(seq<string>, string)>
    decreases |s|
  {
    var (name, rest) :- ParseAssignment(s);
    if "," <= rest then
      var (names, end) :- ParseAssignments(rest[1..]);
      Some(([name] + names, end))
    else
      Some(([name], rest))
  }

  /** The columns, and the number of the argument each of them is given. */
  function ParseColumns(s: string, sep: string): Option<(seq<string>, seq<nat>, string)> {
    if "DEFAULT VALUES" <= s then Some(([], [], s[14..]))
    else
      var body :- Expect("(", s);
      var (names, rest) :- ParseNames(body, sep);
      var values :- Expect(") VALUES (", rest);
      var (binds, close) :- ParseBinds(values);
      var end :- Expect(")", close);
      Some((names, binds, end))
  }

  function ParseConflict(s: string): Option<(seq<string>, string)> {
    if "(" <= s then
      var (names, rest) :- ParseNames(s[1..], ", ");
      var end :- Expect(")", rest);
      Some((names, end))
    else
      Some(([], s))
  }

  function ParseAction(s: string): Option<(Action, string)> {
    if "DO NOTHING" <= s then Some((DoNothing, s[10..]))
    else
      var body :- Expect("DO UPDATE SET ", s);
      var (names, rest) :- ParseAssignments(body);
      Some((DoUpdate(names), rest))
  }

  function ParseReturning(s: string, sep: string): Option<seq<string>> {
    if s == "" then Some([])
    else
      var body :- Expect(" RETURNING ", s);
      var (names, rest) :- ParseNames(body, sep);
      if rest == "" then Some(names) else None
  }

  function Parse(s: string): Option<Upsert> {
    var s1 :- Expect("INSERT INTO ", s);
    var (table, s2) :- ParseName(s1);
    var s3 :- Expect(" ", s2);
    var (columns, binds, s4) :- ParseColumns(s3, ", ");
    var s5 :- Expect(" ON CONFLICT ", s4);
    var (conflict, s6) :- ParseConflict(s5);
    var s7 :- Expect(" ", s6);
    var (action, s8) :- ParseAction(s7);
    var returning :- ParseReturning(s8, ", ");
    Some(Upsert(table, columns, binds, conflict, action, returning))
  }

  // ---------------------------------------------------------------- round trip

  lemma ExpectAppend(prefix: string, rest: string)
    ensures Expect(prefix, prefix + rest) == Some(rest)
  {
    assert (prefix + rest)[|prefix|..] == rest;
  }

  lemma {:induction false} UntilQuoteAppend(name: string, rest: string)
    requires QUOTE !in name
    ensures UntilQuote(name + [QUOTE] + rest) == Some((name, rest))
  {
    var s := name + [QUOTE] + rest;
    if name == "" {
      assert s[1..] == rest;
    } else {
      assert s[1..] == name[1..] + [QUOTE] + rest;
      UntilQuoteAppend(name[1..], rest);
      assert [s[0]] + name[1..] == name;
    }
  }

  lemma ParseNameAppend(name: string, rest: string)
    requires Plain(name)
    ensures ParseName(IdentQuote(name) + rest) == Some((name, rest))
  {
    assert IdentQuote(name) + rest == [QUOTE] + (name + [QUOTE] + rest);
    ExpectAppend([QUOTE], name + [QUOTE] + rest);
    UntilQuoteAppend(name, rest);
  }

  /** The argument numbers k, k+1, ..., n of them. */
  function Numbers(n: nat, k: nat): seq<nat> {
    seq(n, i requires 0 <= i < n => k + i)
  }

  lemma LastBind(k: nat, rest: string)
    requires rest == "" || (!IsDigit(rest[0]) && rest[0] != ',')
    ensures ParseBinds("$" + (Digits(k) + rest)) == Some(([k], rest))
  {
    DigitsAreDigits(k);
    ValueOfDigits(k);
    ExpectAppend("$", Digits(k) + rest);
    TakeDigitsAppend(Digits(k), rest);
  }

  lemma BindAndMore(k: nat, tail: string, binds: seq<nat>, end: string)
    requires ParseBinds(tail) == Some((binds, end))
    ensures ParseBinds("$" + (Digits(k) + ("," + tail))) == Some(([k] + binds, end))
  {
    DigitsAreDigits(k);
    ValueOfDigits(k);
    ExpectAppend("$", Digits(k) + ("," + tail));
    TakeDigitsAppend(Digits(k), "," + tail);
    ExpectAppend(",", tail);
  }

  lemma PlaceholdersSplit(n: nat, k: nat, rest: string)
    requires n > 1
    ensures Placeholders(n, k) + rest == "$" + (Digits(k) + ("," + (Placeholders(n - 1, k + 1) + rest)))
  {
    var more := Placeholders(n - 1, k + 1);
    Assoc("$" + Digits(k) + ",", more, rest);
    Regroup("$", Digits(k), ",", more + rest);
  }

  lemma NumbersSplit(n: nat, k: nat)
    requires n > 0
    ensures Numbers(n, k) == [k] + Numbers(n - 1, k + 1)
  {
    var all, parts := Numbers(n, k), [k] + Numbers(n - 1, k + 1);
    assert |all| == |parts| && forall i :: 0 <= i < n ==> all[i] == parts[i];
    assert all == parts;
  }

  /** The placeholders bind n successive arguments, from the given number on. */
  lemma {:induction false} PlaceholdersBind(n: nat, k: nat, rest: string)
    requires n > 0 && (rest == "" || (!IsDigit(rest[0]) && rest[0] != ','))
    ensures ParseBinds(Placeholders(n, k) + rest) == Some((Numbers(n, k), rest))
  {
    if n == 1 {
      Assoc("$", Digits(k), rest);
      LastBind(k, rest);
      assert Placeholders(n, k) == "$" + Digits(k);
      NumbersSplit(1, k);
      assert Numbers(n, k) == [k];
    } else {
      PlaceholdersBind(n - 1, k + 1, rest);
      BindAndMore(k, Placeholders(n - 1, k + 1) + rest, Numbers(n - 1, k + 1), rest);
      PlaceholdersSplit(n, k, rest);
      NumbersSplit(n, k);
    }
  }

  /** A separator of names: it begins with a comma. */
  predicate IsSeparator(sep: string) {
    sep == ", " || sep == ","
  }

  lemma {:induction false} ParseNamesAppend(names: seq<string>, sep: string, rest: string)
    requires AllPlain(names) && names != [] && IsSeparator(sep) && (rest == "" || rest[0] != ',')
    ensures ParseNames(Join(IdentQuoteSlice(names), sep) + rest, sep) == Some((names, rest))
  {
    var q := IdentQuoteSlice(names[1..]);
    assert IdentQuoteSlice(names) == [IdentQuote(names[0])] + q;
    if |names| == 1 {
      ParseNameAppend(names[0], rest);
      assert [names[0]] == names;
    } else {
      var tail := Join(q, sep) + rest;
      assert ([IdentQuote(names[0])] + q)[1..] == q;
      Regroup(IdentQuote(names[0]), sep, Join(q, sep), rest);
      ParseNameAppend(names[0], sep + tail);
      ExpectAppend(sep, tail);
      ParseNamesAppend(names[1..], sep, rest);
      assert [names[0]] + names[1..] == names;
    }
  }

  /** The names the update loop does not skip. */
  function NonEmpty(names: seq<string>): seq<string> {
    if names == [] then []
    else if names[0] == "" then NonEmpty(names[1..])
    else [names[0]] + NonEmpty(names[1..])
  }

  function Assignments(names: seq<string>): seq<string> {
    if names == [] then [] else [Assignment(names[0])] + Assignments(names[1..])
  }

  /** Past index 0, the loop writes a comma before each name it does not skip. */
  lemma {:induction false} LaterItems(update: seq<string>)
    ensures SetItems(update, false) ==
            if NonEmpty(update) == [] then "" else "," + Join(Assignments(NonEmpty(update)), ",")
  {
    if update != [] {
      LaterItems(update[1..]);
      if update[0] != "" {
        ItemsFrom(update[0], NonEmpty(update[1..]));
      }
    }
  }

  lemma ItemsFrom(name: string, names: seq<string>)
    ensures Join(Assignments([name] + names), ",") ==
            Assignment(name) + (if names == [] then "" else "," + Join(Assignments(names), ","))
  {
    assert ([name] + names)[1..] == names;
    assert ([Assignment(name)] + Assignments(names))[1..] == Assignments(names);
  }

  /** The SET list is the comma-separated list of the non-empty names exactly when no name leads the list empty. */
  lemma CommasWellPlaced(update: seq<string>)
    ensures SetItems(update, true) == Join(Assignments(NonEmpty(update)), ",")
            <==> update == [] || update[0] != "" || NonEmpty(update) == []
  {
    if update != [] {
      LaterItems(update[1..]);
      if update[0] != "" {
        ItemsFrom(update[0], NonEmpty(update[1..]));
      } else {
        assert NonEmpty(update) != [] ==> |SetItems(update, true)| == |Join(Assignments(NonEmpty(update)), ",")| + 1;
      }
    }
  }

  lemma ParseAssignmentAppend(name: string, rest: string)
    requires Plain(name)
    ensures ParseAssignment(Assignment(name) + rest) == Some((name, rest))
  {
    var q := IdentQuote(name);
    Regroup(q, " = EXCLUDED.", q, rest);
    Assoc(q, " = EXCLUDED.", q);
    ParseNameAppend(name, " = EXCLUDED." + (q + rest));
    ExpectAppend(" = EXCLUDED.", q + rest);
    ParseNameAppend(name, rest);
  }

  lemma {:induction false} ParseAssignmentsAppend(names: seq<string>, rest: string)
    requires AllPlain(names) && names != [] && (rest == "" || rest[0] != ',')
    ensures ParseAssignments(Join(Assignments(names), ",") + rest) == Some((names, rest))
  {
    var name, names' := names[0], names[1..];
    assert names == [name] + names';
    ItemsFrom(name, names');
    if names' == [] {
      ParseAssignmentAppend(name, rest);
      assert Assignment(name) + "" + rest == Assignment(name) + rest && names == [name];
    } else {
      var tail := Join(Assignments(names'), ",") + rest;
      Regroup(Assignment(name), ",", Join(Assignments(names'), ","), rest);
      Assoc(Assignment(name), ",", Join(Assignments(names'), ","));
      ParseAssignmentAppend(name, "," + tail);
      ExpectAppend(",", tail);
      ParseAssignmentsAppend(names', rest);
    }
  }

  lemma ColumnsUndone(whitelist: seq<string>, sep: string, rest: string)
    requires AllPlain(whitelist) && IsSeparator(sep)
    ensures ParseColumns(ColumnsPart(whitelist, sep) + rest, sep) == Some((whitelist, Numbers(|whitelist|, 1), rest))
  {
    if |whitelist| == 0 {
      ExpectAppend("DEFAULT VALUES", rest);
      assert whitelist == [] && Numbers(0, 1) == [];
    } else {
      var close := ")" + rest;
      var values := Placeholders(|whitelist|, 1) + close;
      var after := ") VALUES (" + values;
      var body := Join(IdentQuoteSlice(whitelist), sep) + after;
      assert ColumnsPart(whitelist, sep) + rest == "(" + body;
      assert ("(" + body)[0] == '(';
      ExpectAppend("(", body);
      ParseNamesAppend(whitelist, sep, after);
      ExpectAppend(") VALUES (", values);
      PlaceholdersBind(|whitelist|, 1, close);
      ExpectAppend(")", rest);
    }
  }

  lemma ConflictUndone(conflict: seq<string>, rest: string)
    requires AllPlain(conflict)
    ensures ParseConflict(ConflictPart(conflict, NO_OPTIONS) + (" " + rest)) == Some((conflict, " " + rest))
  {
    if |conflict| != 0 {
      var close := ")" + (" " + rest);
      var body := Join(IdentQuoteSlice(conflict), ", ") + close;
      assert ConflictPart(conflict, NO_OPTIONS) + (" " + rest) == "(" + body;
      ExpectAppend("(", body);
      ParseNamesAppend(conflict, ", ", close);
      ExpectAppend(")", " " + rest);
    } else {
      assert ConflictPart(conflict, NO_OPTIONS) + (" " + rest) == " " + rest;
      assert (" " + rest)[0] == ' ' && conflict == [];
    }
  }

  lemma ReturningUndone(ret: seq<string>, sep: string)
    requires AllPlain(ret) && IsSeparator(sep)
    ensures ParseReturning(ReturningPart(ret, sep), sep) == Some(ret)
    ensures ReturningPart(ret, sep) == "" || ReturningPart(ret, sep)[0] == ' '
  {
    if |ret| != 0 {
      var body := Join(IdentQuoteSlice(ret), sep);
      ExpectAppend(" RETURNING ", body);
      ParseNamesAppend(ret, sep, "");
      assert body + "" == body;
    }
  }

  ghost predicate PlainOrEmpty(names: seq<string>) {
    forall i :: 0 <= i < |names| ==> names[i] == "" || Plain(names[i])
  }

  lemma {:induction false} NonEmptyArePlain(names: seq<string>)
    requires PlainOrEmpty(names)
    ensures AllPlain(NonEmpty(names))
  {
    if names != [] {
      NonEmptyArePlain(names[1..]);
    }
  }

  /** What the action clause says; None when the update list leads with an empty name. */
  function Intended(updateOnConflict: bool, update: seq<string>): Option<Action> {
    if !updateOnConflict || update == [] then Some(DoNothing)
    else if update[0] != "" then Some(DoUpdate(NonEmpty(update)))
    else None
  }

  lemma ActionUndone(updateOnConflict: bool, update: seq<string>, rest: string)
    requires PlainOrEmpty(update) && (rest == "" || rest[0] == ' ')
    ensures ParseAction(ActionPart(updateOnConflict, update, NO_OPTIONS) + rest) ==
            match Intended(updateOnConflict, update)
            case Some(action) => Some((action, rest))
            case None => None
  {
    if !updateOnConflict || update == [] {
      ExpectAppend("DO NOTHING", rest);
    } else {
      var items := SetItems(update, true);
      assert ActionPart(updateOnConflict, update, NO_OPTIONS) + rest == "DO UPDATE SET " + (items + rest);
      assert ("DO UPDATE SET " + (items + rest))[3] == 'U' && "DO NOTHING"[3] == 'N';
      ExpectAppend("DO UPDATE SET ", items + rest);
      if update[0] != "" {
        CommasWellPlaced(update);
        NonEmptyArePlain(update);
        ParseAssignmentsAppend(NonEmpty(update), rest);
      } else {
        LaterItems(update[1..]);
        assert items + rest == "" || (items + rest)[0] != QUOTE;
      }
    }
  }

  /**
   Without custom options the printer can be undone: the table, the column, conflict
   and returning lists and the action all come back, the k-th column is given the k-th
   argument, and the statement is readable exactly when the update list does not lead
   with an empty name.
   */
  lemma StatementUndone(
      table: string, updateOnConflict: bool, ret: seq<string>, update: seq<string>,
      conflict: seq<string>, whitelist: seq<string>)
    requires Plain(table) && AllPlain(ret) && PlainOrEmpty(update) && AllPlain(conflict) && AllPlain(whitelist)
    ensures Parse(UpsertStatement(IdentQuote(table), updateOnConflict, ret, update, conflict, whitelist, NO_OPTIONS)) ==
            match Intended(updateOnConflict, update)
            case Some(action) => Some(Upsert(table, whitelist, Numbers(|whitelist|, 1), conflict, action, ret))
            case None => None
  {
    var s8 := ReturningPart(ret, ", ");
    var s7 := ActionPart(updateOnConflict, update, NO_OPTIONS) + s8;
    var s5 := ConflictPart(conflict, NO_OPTIONS) + (" " + s7);
    var s3 := ColumnsPart(whitelist, ", ") + (" ON CONFLICT " + s5);
    var s1 := IdentQuote(table) + (" " + s3);
    ExpectAppend("INSERT INTO ", s1);
    ParseNameAppend(table, " " + s3);
    ExpectAppend(" ", s3);
    ColumnsUndone(whitelist, ", ", " ON CONFLICT " + s5);
    ExpectAppend(" ON CONFLICT ", s5);
    ConflictUndone(conflict, s7);
    ExpectAppend(" ", s7);
    ReturningUndone(ret, ", ");
    ActionUndone(updateOnConflict, update, s8);
  }

  // ---------------------------------------------------------------- custom options

  /** A custom conflict target and a custom SET text stand in the statement as they are, each in its place. */
  lemma CustomTextStands(
      table: string, updateOnConflict: bool, ret: seq<string>, update: seq<string>,
      conflict: seq<string>, whitelist: seq<string>, opts: UpsertOptions)
    requires opts.conflictTarget != "" && (updateOnConflict && update != [] ==> opts.updateSet != "")
    ensures UpsertStatement(table, updateOnConflict, ret, update, conflict, whitelist, opts) ==
            ("INSERT INTO " + (table + (" " + (ColumnsPart(whitelist, ", ") + " ON CONFLICT "))))
            + (opts.conflictTarget
               + (" " + ((if updateOnConflict && update != [] then "DO UPDATE SET " + opts.updateSet else "DO NOTHING")
                         + ReturningPart(ret, ", "))))
  {
    var rest := opts.conflictTarget + (" " + (ActionPart(updateOnConflict, update, opts) + ReturningPart(ret, ", ")));
    var c, o := ColumnsPart(whitelist, ", "), " ON CONFLICT ";
    Assoc(c, o, rest);
    Assoc(" ", c + o, rest);
    Assoc(table, " " + (c + o), rest);
    Assoc("INSERT INTO ", table + (" " + (c + o)), rest);
  }

  // ---------------------------------------------------------------- the insert statement

  /** What an insert statement says: binds are the numbers of the arguments its columns are given. */
  datatype InsertStatement = InsertStatement(
    table: string, columns: seq<string>, binds: seq<nat>, returning: seq<string>)

  /** The statement of Insert (models/account.go:2042-2054). */
  function InsertQuery(table: string, wl: seq<string>, returnColumns: seq<string>, returning: bool): string {
    "INSERT INTO \"" + table + "\" "
    + (if |wl| != 0 then "(\"" + Join(wl, "\",\"") + "\") VALUES (" + Placeholders(|wl|, 1) + ")"
       else "DEFAULT VALUES")
    + (if returning then " RETURNING \"" + Join(returnColumns, "\",\"") + "\"" else "")
  }

  function ParseInsert(s: string): Option<InsertStatement> {
    var s1 :- Expect("INSERT INTO ", s);
    var (table, s2) :- ParseName(s1);
    var s3 :- Expect(" ", s2);
    var (columns, binds, s4) :- ParseColumns(s3, ",");
    var returning :- ParseReturning(s4, ",");
    Some(InsertStatement(table, columns, binds, returning))
  }

  /** Names joined inside one pair of quotes are quoted names joined by commas. */
  lemma {:induction false} QuotedJoin(names: seq<string>)
    requires names != []
    ensures "\"" + Join(names, "\",\"") + "\"" == Join(IdentQuoteSlice(names), ",")
  {
    if |names| > 1 {
      var n, rest, j := names[0], names[1..], Join(names[1..], "\",\"");
      QuotedJoin(rest);
      assert IdentQuoteSlice(names)[1..] == IdentQuoteSlice(rest);
      assert "\"" + (n + "\",\"" + j) + "\"" == IdentQuote(n) + "," + ("\"" + j + "\"");
    }
  }

  lemma ColumnsText(wl: seq<string>)
    requires wl != []
    ensures "(\"" + Join(wl, "\",\"") + "\") VALUES (" + Placeholders(|wl|, 1) + ")" == ColumnsPart(wl, ",")
  {
    QuotedJoin(wl);
    MoveQuotes(Join(wl, "\",\""), Placeholders(|wl|, 1));
  }

  lemma MoveQuotes(j: string, p: string)
    ensures "(\"" + j + "\") VALUES (" + p + ")" == "(" + (("\"" + j + "\"") + (") VALUES (" + (p + ")")))
  {
    var open, close := "(\"" + j, "\") VALUES (";
    assert open + close == "(" + ("\"" + j + "\"") + ") VALUES (";
    Assoc("(" + ("\"" + j + "\""), ") VALUES (", p + ")");
    Assoc("(", "\"" + j + "\"", ") VALUES (" + (p + ")"));
    Assoc(open + close, p, ")");
  }

  lemma ReturningText(ret: seq<string>)
    requires ret != []
    ensures " RETURNING \"" + Join(ret, "\",\"") + "\"" == ReturningPart(ret, ",")
  {
    QuotedJoin(ret);
    assert " RETURNING \"" == " RETURNING " + "\"";
    Assoc(" RETURNING ", "\"", Join(ret, "\",\""));
    Assoc(" RETURNING ", "\"" + Join(ret, "\",\""), "\"");
  }

  lemma HeadText(table: string, columns: string, last: string)
    ensures "INSERT INTO \"" + table + "\" " + columns + last ==
            "INSERT INTO " + (IdentQuote(table) + (" " + (columns + last)))
  {
    var head := "INSERT INTO \"" + table + "\" ";
    assert head == "INSERT INTO " + IdentQuote(table) + " ";
    Assoc(head, columns, last);
    Assoc("INSERT INTO " + IdentQuote(table), " ", columns + last);
    Assoc("INSERT INTO ", IdentQuote(table), " " + (columns + last));
  }

  lemma InsertQueryParts(table: string, wl: seq<string>, ret: seq<string>, returning: bool)
    requires returning <==> ret != []
    ensures InsertQuery(table, wl, ret, returning) ==
            "INSERT INTO " + (IdentQuote(table) + (" " + (ColumnsPart(wl, ",") + ReturningPart(ret, ","))))
  {
    if wl != [] {
      ColumnsText(wl);
    }
    if ret != [] {
      ReturningText(ret);
    }
    HeadText(table, ColumnsPart(wl, ","), ReturningPart(ret, ","));
  }

  /** The insert statement can be read back; its k-th column is given the k-th argument. */
  lemma InsertUndone(table: string, wl: seq<string>, ret: seq<string>, returning: bool)
    requires Plain(table) && AllPlain(wl) && AllPlain(ret) && (returning <==> ret != [])
    ensures ParseInsert(InsertQuery(table, wl, ret, returning)) ==
            Some(InsertStatement(table, wl, Numbers(|wl|, 1), ret))
  {
    var s4 := ReturningPart(ret, ",");
    var s3 := ColumnsPart(wl, ",") + s4;
    InsertQueryParts(table, wl, ret, returning);
    ExpectAppend("INSERT INTO ", IdentQuote(table) + (" " + s3));
    ParseNameAppend(table, " " + s3);
    ExpectAppend(" ", s3);
    ColumnsUndone(wl, ",", s4);
    ReturningUndone(ret, ",");
  }
}
