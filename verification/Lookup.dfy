/** internal/snowflake/statement/result.go, and the account lookup of
    internal/account/modules/account/apply.go that narrows with SHOW ... LIKE first. */
module Lookup {
  import opened Common
  import opened Text

  // ---- result.go -----------------------------------------------------------------

  datatype Cell = Null | Text(text: string) | Other
  datatype Column = Column(name: string, cell: Cell)

  /** A row maps column names to cells; the order is the one in which a scan of the
      map happens to visit it. */
  type Row = seq<Column>

  function Exact(row: Row, column: string): Option<Cell> {
    if row == [] then None
    else if row[0].name == column then Some(row[0].cell)
    else Exact(row[1..], column)
  }

  function Folded(row: Row, column: string): Option<Cell> {
    if row == [] then None
    else if EqualFold(row[0].name, column) then Some(row[0].cell)
    else Folded(row[1..], column)
  }

  /** `None` for a row that was not found or has no such column. */
  function Value(row: Option<Row>, column: string): Option<Cell> {
    if row.None? then None
    else if Exact(row.value, column).Some? then Exact(row.value, column)
    else Folded(row.value, column)
  }

  function StringValue(row: Option<Row>, column: string): Option<string> {
    var v := Value(row, column);
    if v.Some? && v.value.Text? then Some(v.value.text) else None
  }

  predicate Matches(row: Row, column: string, value: string) {
    var s := StringValue(Some(row), column);
    s.Some? && EqualFold(s.value, value)
  }

  function FindRow(rows: seq<Row>, column: string, value: string): Option<Row> {
    if rows == [] then None
    else if Matches(rows[0], column, value) then Some(rows[0])
    else FindRow(rows[1..], column, value)
  }

  /** The row's column holds this text, in any mixture of case. */
  predicate Holds(row: Row, column: string, value: string) {
    var s := StringValue(Some(row), column);
    s.Some? && SameButForCase(s.value, value)
  }

  lemma MatchesExactly(row: Row, column: string, value: string)
    ensures Matches(row, column, value) <==> Holds(row, column, value)
  {
    if StringValue(Some(row), column).Some? {
      EqualFoldExactly(StringValue(Some(row), column).value, value);
    }
  }

  /** FindRow returns the first row holding the value in any case, and nothing exactly
      when there is none. */
  lemma {:induction false} FindRowIsFirst(rows: seq<Row>, column: string, value: string, i: nat)
    requires i < |rows|
    ensures FindRow(rows, column, value).Some? ==> Holds(FindRow(rows, column, value).value, column, value)
    ensures FindRow(rows, column, value).None? ==> !Holds(rows[i], column, value)
    ensures Holds(rows[i], column, value) && (forall j :: 0 <= j < i ==> !Holds(rows[j], column, value))
        ==> FindRow(rows, column, value) == Some(rows[i])
  {
    MatchesExactly(rows[0], column, value);
    if Matches(rows[0], column, value) {
    } else if i > 0 {
      FindRowIsFirst(rows[1..], column, value, i - 1);
    } else if |rows| > 1 {
      FindRowIsFirst(rows[1..], column, value, 0);
    } else {
      assert rows[1..] == [];
    }
  }

  predicate FoldUnique(row: Row) {
    forall i, j :: 0 <= i < j < |row| ==> !SameButForCase(row[i].name, row[j].name)
  }

  /** A column of exactly the asked name is preferred to one that differs in case; a map
      has at most one. */
  lemma {:induction false} ExactNameWins(row: Row, column: string, k: nat)
    requires k < |row| && row[k].name == column
    requires forall i :: 0 <= i < |row| && i != k ==> row[i].name != column
    ensures Value(Some(row), column) == Some(row[k].cell)
    ensures StringValue(Some(row), column) == if row[k].cell.Text? then Some(row[k].cell.text) else None
  {
    ExactFinds(row, column, k);
  }

  lemma {:induction false} ExactFinds(row: Row, column: string, k: nat)
    requires k < |row| && row[k].name == column
    requires forall i :: 0 <= i < k ==> row[i].name != column
    ensures Exact(row, column) == Some(row[k].cell)
  {
    if k > 0 {
      ExactFinds(row[1..], column, k - 1);
    }
  }

  /** When no two column names differ only by case, the value found does not depend
      on the order in which the map is scanned. */
  lemma {:induction false} ValueIgnoresOrder(row: Row, column: string, cell: Cell)
    requires FoldUnique(row)
    ensures Value(Some(row), column) == Some(cell)
       <==> exists i :: 0 <= i < |row| && SameButForCase(row[i].name, column) && row[i].cell == cell
  {
    FoldedFinds(row, column, cell);
    ExactIsFolded(row, column);
    forall i | 0 <= i < |row| ensures EqualFold(row[i].name, column) <==> SameButForCase(row[i].name, column) {
      EqualFoldExactly(row[i].name, column);
    }
  }

  lemma {:induction false} FoldedFinds(row: Row, column: string, cell: Cell)
    requires FoldUnique(row)
    ensures Folded(row, column) == Some(cell)
       <==> exists i :: 0 <= i < |row| && EqualFold(row[i].name, column) && row[i].cell == cell
  {
    if row != [] {
      if EqualFold(row[0].name, column) {
        forall i | 0 < i < |row| ensures !EqualFold(row[i].name, column) {
          EqualFoldExactly(row[0].name, row[i].name);
        }
      } else {
        FoldedFinds(row[1..], column, cell);
        forall i | 0 < i < |row| ensures row[i] == row[1..][i - 1] { }
        if i :| 0 <= i < |row[1..]| && EqualFold(row[1..][i].name, column) && row[1..][i].cell == cell {
          assert row[i + 1] == row[1..][i];
        }
      }
    }
  }

  lemma {:induction false} ExactIsFolded(row: Row, column: string)
    requires FoldUnique(row)
    ensures Exact(row, column).Some? ==> Exact(row, column) == Folded(row, column)
  {
    if row != [] && row[0].name != column {
      ExactIsFolded(row[1..], column);
      if Exact(row[1..], column).Some? {
        var k := ExactIndex(row[1..], column);
        EqualFoldExactly(row[0].name, row[k + 1].name);
      }
    }
  }

  lemma {:induction false} ExactIndex(row: Row, column: string) returns (k: nat)
    requires Exact(row, column).Some?
    ensures k < |row| && row[k].name == column
  {
    if row[0].name == column {
      k := 0;
    } else {
      k := ExactIndex(row[1..], column);
      k := k + 1;
    }
  }

  // ---- SHOW ... LIKE ---------------------------------------------------------------

  /** SQL LIKE, ignoring case: `_` is any one character, `%` any run of them. */
  predicate Like(pattern: string, t: string)
    decreases |pattern| + |t|
  {
    if pattern == "" then t == ""
    else if pattern[0] == '%' then Like(pattern[1..], t) || (t != "" && Like(pattern, t[1..]))
    else t != "" && (pattern[0] == '_' || UpperChar(pattern[0]) == UpperChar(t[0])) && Like(pattern[1..], t[1..])
  }

  /** Every text is LIKE itself, in any case: wildcards only ever add matches. */
  lemma {:induction false} LikeIsCoarser(pattern: string, t: string)
    requires EqualFold(pattern, t)
    ensures Like(pattern, t)
  {
    if pattern != "" {
      assert t != "";
      assert ToUpper(pattern)[0] == ToUpper(t)[0];
      assert ToUpper(pattern[1..]) == ToUpper(pattern)[1..];
      assert ToUpper(t[1..]) == ToUpper(t)[1..];
      LikeIsCoarser(pattern[1..], t[1..]);
    }
  }

  const ACCOUNT_NAME := "account_name"
  const ACCOUNT_LOCATOR := "account_locator"

  /** SHOW <objects> LIKE pattern, over all the rows there are. */
  function ShowLike(all: seq<Row>, column: string, pattern: string): seq<Row> {
    if all == [] then []
    else
      var s := StringValue(Some(all[0]), column);
      (if s.Some? && Like(pattern, s.value) then [all[0]] else []) + ShowLike(all[1..], column, pattern)
  }

  /** Filtering with LIKE first and comparing exactly afterwards finds the same row
      as comparing exactly over everything. */
  lemma {:induction false} CoarseThenExact(all: seq<Row>, column: string, name: string)
    ensures FindRow(ShowLike(all, column, name), column, name) == FindRow(all, column, name)
  {
    if all != [] {
      CoarseThenExact(all[1..], column, name);
      var s := StringValue(Some(all[0]), column);
      if s.Some? && EqualFold(s.value, name) {
        LikeIsCoarser(name, s.value);
      }
      if s.Some? && Like(name, s.value) {
        assert ShowLike(all, column, name)[1..] == ShowLike(all[1..], column, name);
      } else {
        assert ShowLike(all, column, name) == ShowLike(all[1..], column, name);
      }
    }
  }

  /** findAccountLocator, given the rows SHOW ACCOUNTS LIKE returned. */
  function FindAccountLocator(all: seq<Row>, resolvedName: string): Option<string> {
    var shown := ShowLike(all, ACCOUNT_NAME, resolvedName);
    var locator := StringValue(FindRow(shown, ACCOUNT_NAME, resolvedName), ACCOUNT_LOCATOR);
    if locator.Some? && locator.value != "" then locator else None
  }

  /** The lookup decides by the first row of the name, in any case: it finds what that row
      has for a locator, and nothing if that is no text or the empty one. */
  lemma FirstRowDecides(all: seq<Row>, name: string, i: nat)
    requires i < |all| && Holds(all[i], "account_name", name)
    requires forall j :: 0 <= j < i ==> !Holds(all[j], "account_name", name)
    ensures var l := StringValue(Some(all[i]), "account_locator");
      FindAccountLocator(all, name) == if l == Some("") then None else l
  {
    CoarseThenExact(all, ACCOUNT_NAME, name);
    FindRowIsFirst(all, ACCOUNT_NAME, name, i);
  }

  lemma NoRowNoLocator(all: seq<Row>, name: string)
    requires forall j :: 0 <= j < |all| ==> !Holds(all[j], "account_name", name)
    ensures FindAccountLocator(all, name) == None
  {
    CoarseThenExact(all, ACCOUNT_NAME, name);
    if FindRow(all, ACCOUNT_NAME, name).Some? {
      var i := FoundIndex(all, ACCOUNT_NAME, name);
      MatchesExactly(all[i], ACCOUNT_NAME, name);
    }
  }

  function NameOf(row: Row): Option<string> { StringValue(Some(row), ACCOUNT_NAME) }

  /** Each row shows one account of `accounts` (name to locator) faithfully. */
  ghost predicate RowsAreAccounts(all: seq<Row>, accounts: map<string, string>) {
    forall i :: 0 <= i < |all| ==>
      && NameOf(all[i]).Some?
      && NameOf(all[i]).value in accounts
      && StringValue(Some(all[i]), ACCOUNT_LOCATOR) == Some(accounts[NameOf(all[i]).value])
  }

  ghost predicate Shown(all: seq<Row>, name: string) {
    exists i :: 0 <= i < |all| && NameOf(all[i]) == Some(name)
  }

  /** The rows of an organization: every account is shown, names are unique
      ignoring case, and no locator is empty. */
  ghost predicate IsDirectory(all: seq<Row>, accounts: map<string, string>) {
    && RowsAreAccounts(all, accounts)
    && (forall n :: n in accounts ==> accounts[n] != "" && Shown(all, n))
    && (forall n, m :: n in accounts && m in accounts && EqualFold(n, m) ==> n == m)
  }

  lemma {:induction false} SomeRowMatches(all: seq<Row>, name: string, n: string)
    requires Shown(all, n) && EqualFold(n, name)
    ensures FindRow(all, ACCOUNT_NAME, name).Some?
  {
    var i :| 0 <= i < |all| && NameOf(all[i]) == Some(n);
    EqualFoldExactly(n, name);
    assert Holds(all[i], ACCOUNT_NAME, name);
    FindRowIsFirst(all, ACCOUNT_NAME, name, i);
  }

  /** Against such a directory the lookup returns a locator exactly when it belongs
      to the account of that name, in whatever mixture of case Snowflake reports it. */
  lemma {:induction false} LocatorIsOfThatAccount(all: seq<Row>, accounts: map<string, string>, name: string,
        locator: string)
    requires IsDirectory(all, accounts)
    ensures FindAccountLocator(all, name) == Some(locator)
       <==> exists n :: n in accounts && SameButForCase(n, name) && accounts[n] == locator
  {
    forall n | n in accounts ensures EqualFold(n, name) <==> SameButForCase(n, name) { EqualFoldExactly(n, name); }
    CoarseThenExact(all, ACCOUNT_NAME, name);
    if FindRow(all, ACCOUNT_NAME, name).Some? {
      var i := FoundIndex(all, ACCOUNT_NAME, name);
      var n := NameOf(all[i]).value;
      assert n in accounts && EqualFold(n, name);
      assert FindAccountLocator(all, name) == Some(accounts[n]);
      forall m | m in accounts && EqualFold(m, name) ensures m == n {
        assert EqualFold(m, n);
      }
    } else {
      forall n | n in accounts && EqualFold(n, name) ensures false {
        SomeRowMatches(all, name, n);
      }
    }
  }

  lemma {:induction false} FoundIndex(rows: seq<Row>, column: string, value: string) returns (i: nat)
    requires FindRow(rows, column, value).Some?
    ensures i < |rows| && FindRow(rows, column, value) == Some(rows[i]) && Matches(rows[i], column, value)
  {
    if Matches(rows[0], column, value) {
      i := 0;
    } else {
      i := FoundIndex(rows[1..], column, value);
      i := i + 1;
    }
  }
}
