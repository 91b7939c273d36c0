/**
 * The `conversas` table (columns id, user_id, role, content) and the three
 * operations on it: `salvar_mensagem`, `recuperar_historico` and
 * `limpar_memoria`. The table is a sequence of rows in insertion order; the
 * database connection is reduced to whether one can be opened.
 */
module Conversations {
  import opened Optional
  import opened Deployments

  /** The sender address. None stands for a request without a From field,
      which the driver stores as SQL NULL. */
  type UserKey = Option<string>

  datatype Role = System | User | Assistant

  datatype Row = Row(id: nat, user: UserKey, role: Role, content: string)

  /** One entry of the message list handed to the completion service. */
  datatype Message = Message(role: Role, content: string)

  /** The table's rows in insertion order, the next SERIAL value, and whether a
      connection can be opened. */
  datatype Table = Table(rows: seq<Row>, nextId: nat, available: bool)

  /** The LIMIT of the history query. */
  const HistoryLimit: nat := 10

  function Min(a: nat, b: nat): nat {
    if a <= b then a else b
  }

  /** The SQL test `user_id = u`: a NULL on either side never matches. */
  function Owns(row: Row, u: UserKey): (b: bool)
    ensures u.None? ==> !b
    ensures u.Some? ==> (b <==> row.user == u)
  {
    u.Some? && row.user == u
  }

  ghost predicate Ascending(rows: seq<Row>) {
    forall i, j :: 0 <= i < j < |rows| ==> rows[i].id < rows[j].id
  }

  /** SERIAL ids increase in insertion order and stay below the next value. */
  ghost predicate WellFormed(t: Table) {
    Ascending(t.rows) && forall x :: x in t.rows ==> x.id < t.nextId
  }

  /** The rows, in table order, on which `user_id = u` is `owned`: a SELECT
      with that WHERE clause keeps the `true` ones, a DELETE leaves the others. */
  function Filter(rows: seq<Row>, u: UserKey, owned: bool): (r: seq<Row>)
    ensures forall x :: x in r <==> x in rows && Owns(x, u) == owned
    ensures Ascending(rows) ==> Ascending(r)
    decreases |rows|
  {
    if rows == [] then []
    else
      var init, last := rows[..|rows| - 1], rows[|rows| - 1];
      assert rows == init + [last];
      var kept := Filter(init, u, owned);
      if Owns(last, u) == owned then
        KeepLast(init, last, kept);
        kept + [last]
      else kept
  }

  lemma KeepLast(init: seq<Row>, last: Row, kept: seq<Row>)
    requires forall x :: x in kept ==> x in init
    ensures Ascending(init + [last]) && Ascending(kept) ==> Ascending(kept + [last])
  {
    if Ascending(init + [last]) && Ascending(kept) {
      OlderThanLast(init, last);
      AscendingSnoc(kept, last);
    }
  }

  lemma OlderThanLast(init: seq<Row>, last: Row)
    requires Ascending(init + [last])
    ensures Ascending(init) && forall x :: x in init ==> x.id < last.id
  {
    assert forall i :: 0 <= i < |init| ==> (init + [last])[i] == init[i];
    forall x | x in init ensures x.id < last.id {
      var i := IndexOf(init, x);
      assert (init + [last])[i] == x && (init + [last])[|init|] == last;
    }
  }

  lemma AscendingSnoc(s: seq<Row>, x: Row)
    requires Ascending(s) && forall y :: y in s ==> y.id < x.id
    ensures Ascending(s + [x])
  {
    forall i, j | 0 <= i < j < |s| + 1 ensures (s + [x])[i].id < (s + [x])[j].id {
      if j == |s| { assert (s + [x])[i] in s; }
    }
  }

  function UserRows(rows: seq<Row>, u: UserKey): seq<Row> {
    Filter(rows, u, true)
  }

  /** A NULL sender key matches no row of any table. */
  lemma {:induction false} NullOwnsNothing(rows: seq<Row>)
    ensures UserRows(rows, None) == []
    decreases |rows|
  {
    if rows != [] {
      NullOwnsNothing(rows[..|rows| - 1]);
    }
  }

  /** The user's newest rows, oldest first: what the history shows. */
  function Recent(rows: seq<Row>, u: UserKey): (r: seq<Row>)
    ensures |r| == Min(HistoryLimit, |UserRows(rows, u)|)
    ensures forall x :: x in r ==> x in rows && Owns(x, u)
    ensures Ascending(rows) ==> Ascending(r)
  {
    var s := UserRows(rows, u);
    var r := s[|s| - Min(HistoryLimit, |s|)..];
    assert forall x :: x in r ==> x in s;
    r
  }

  /** The query `SELECT ... WHERE user_id = u ORDER BY id DESC LIMIT 10`. */
  function NewestFirst(rows: seq<Row>, u: UserKey): (r: seq<Row>)
    ensures |r| == Min(HistoryLimit, |UserRows(rows, u)|)
    ensures forall x :: x in r ==> x in rows && Owns(x, u)
    ensures Ascending(rows) ==> forall i, j :: 0 <= i < j < |r| ==> r[i].id > r[j].id
  {
    var s := UserRows(rows, u);
    var m := Min(HistoryLimit, |s|);
    var r := seq(m, k requires 0 <= k < m => s[|s| - 1 - k]);
    assert forall x :: x in r ==> x in s;
    r
  }

  function ToMessages(rows: seq<Row>): (ms: seq<Message>)
    ensures |ms| == |rows|
  {
    seq(|rows|, i requires 0 <= i < |rows| => Message(rows[i].role, rows[i].content))
  }

  /** What `recuperar_historico` returns: the persona prompt as a system entry,
      then the user's recent turns; only the system entry when no connection
      can be opened. */
  function Fetch(t: Table, prompt: string, u: UserKey): (h: seq<Message>)
    ensures 1 <= |h| <= 1 + HistoryLimit
    ensures h[0] == Message(System, prompt)
    ensures !t.available ==> h == [Message(System, prompt)]
    ensures t.available ==> |h| == 1 + Min(HistoryLimit, |UserRows(t.rows, u)|)
    ensures t.available ==> h[1..] == ToMessages(Recent(t.rows, u))
  {
    if t.available then [Message(System, prompt)] + ToMessages(Recent(t.rows, u))
    else [Message(System, prompt)]
  }

  /** `salvar_mensagem`: one new row with a fresh id above every existing id,
      the old rows untouched; nothing when no connection can be opened. */
  function Insert(t: Table, u: UserKey, role: Role, content: string): (r: Table)
    ensures r.available == t.available
    ensures !t.available ==> r == t
    ensures t.available ==> |r.rows| == |t.rows| + 1 && r.rows[..|t.rows|] == t.rows
    ensures t.available ==>
      var n := r.rows[|t.rows|];
      n.user == u && n.role == role && n.content == content &&
      (WellFormed(t) ==> forall x :: x in t.rows ==> x.id < n.id)
    ensures WellFormed(t) ==> WellFormed(r)
  {
    if t.available then
      assert (t.rows + [Row(t.nextId, u, role, content)])[..|t.rows|] == t.rows;
      Table(t.rows + [Row(t.nextId, u, role, content)], t.nextId + 1, true)
    else t
  }

  /** `limpar_memoria`: every row of `u` goes and every other row stays; nothing
      when no connection can be opened. */
  function Delete(t: Table, u: UserKey): (r: Table)
    ensures r.available == t.available && r.nextId == t.nextId
    ensures !t.available ==> r == t
    ensures t.available ==> forall x :: x in r.rows <==> x in t.rows && !Owns(x, u)
    ensures WellFormed(t) ==> WellFormed(r)
  {
    if t.available then t.(rows := Filter(t.rows, u, false)) else t
  }

  lemma {:induction false} FilterAppend(rows: seq<Row>, x: Row, u: UserKey, owned: bool)
    ensures Filter(rows + [x], u, owned) ==
            Filter(rows, u, owned) + (if Owns(x, u) == owned then [x] else [])
  {
    assert (rows + [x])[..|rows|] == rows;
  }

  /** Selecting the rows of `v` after deleting those of `u`. */
  lemma {:induction false} SelectAfterDelete(rows: seq<Row>, u: UserKey, v: UserKey)
    ensures Filter(Filter(rows, u, false), v, true) == if u == v then [] else Filter(rows, v, true)
    decreases |rows|
  {
    if rows != [] {
      var init, last := rows[..|rows| - 1], rows[|rows| - 1];
      assert rows == init + [last];
      SelectAfterDelete(init, u, v);
      FilterAppend(init, last, u, false);
      FilterAppend(Filter(init, u, false), last, v, true);
    }
  }

  lemma {:induction false} DeleteTwice(rows: seq<Row>, u: UserKey)
    ensures Filter(Filter(rows, u, false), u, false) == Filter(rows, u, false)
    decreases |rows|
  {
    if rows != [] {
      var init, last := rows[..|rows| - 1], rows[|rows| - 1];
      assert rows == init + [last];
      DeleteTwice(init, u);
      FilterAppend(init, last, u, false);
      FilterAppend(Filter(init, u, false), last, u, false);
    }
  }

  /** After a reset the user has no rows left; every other user keeps exactly
      the rows, in the order, they had. */
  lemma ResetScope(t: Table, u: UserKey, v: UserKey)
    ensures UserRows(Delete(t, u).rows, v) ==
            if t.available && u == v then [] else UserRows(t.rows, v)
  {
    if t.available { SelectAfterDelete(t.rows, u, v); }
  }

  /** A second reset of the same user changes nothing. */
  lemma ResetIdempotent(t: Table, u: UserKey)
    ensures Delete(Delete(t, u), u) == Delete(t, u)
  {
    if t.available { DeleteTwice(t.rows, u); }
  }

  /** After a reset the user's history is the system entry alone. */
  lemma HistoryAfterReset(t: Table, prompt: string, u: UserKey)
    ensures Fetch(Delete(t, u), prompt, u) == [Message(System, prompt)]
  {
    if t.available {
      ResetScope(t, u, u);
      assert Recent(Delete(t, u).rows, u) == [];
    }
  }

  /** The history window holds exactly the user's newest rows: every row of
      the user it leaves out is older than every row it shows. */
  lemma {:induction false} RecentIsNewest(rows: seq<Row>, u: UserKey)
    requires Ascending(rows)
    ensures forall x, y :: x in rows && Owns(x, u) && x !in Recent(rows, u) && y in Recent(rows, u)
                           ==> x.id < y.id
  {
    var s := UserRows(rows, u);
    var r := Recent(rows, u);
    var m := |r|;
    assert r == s[|s| - m..];
    assert forall i :: |s| - m <= i < |s| ==> s[i] == r[i - (|s| - m)];
    forall x, y | x in rows && Owns(x, u) && x !in r && y in r ensures x.id < y.id {
      var j, k := IndexOf(s, x), IndexOf(r, y);
      assert j < |s| - m;
      assert s[|s| - m + k] == y;
    }
  }

  function IndexOf(s: seq<Row>, x: Row): (j: nat)
    requires x in s
    ensures j < |s| && s[j] == x
  {
    if s[0] == x then 0 else 1 + IndexOf(s[1..], x)
  }

  lemma ToMessagesSlices(a: seq<Row>, b: seq<Row>)
    ensures ToMessages(a + b) == ToMessages(a) + ToMessages(b)
    ensures |a| > 0 ==> ToMessages(a[1..]) == ToMessages(a)[1..]
  {
  }

  lemma {:induction false} RecentAfterInsert(rows: seq<Row>, x: Row, u: UserKey)
    requires Owns(x, u)
    ensures var before := Recent(rows, u);
      Recent(rows + [x], u) == (if |before| < HistoryLimit then before else before[1..]) + [x]
  {
    var s := UserRows(rows, u);
    FilterAppend(rows, x, u, true);
    assert UserRows(rows + [x], u) == s + [x];
    if |s| >= HistoryLimit {
      assert (s + [x])[|s| + 1 - HistoryLimit..] == s[|s| + 1 - HistoryLimit..] + [x];
    }
  }

  /** The history read right after storing a turn: the previous window, less
      its oldest turn once full, followed by the new turn. */
  lemma FetchAfterInsert(t: Table, prompt: string, u: UserKey, role: Role, content: string)
    requires t.available && u.Some?
    ensures var before := Recent(t.rows, u);
      var kept := if |before| < HistoryLimit then before else before[1..];
      Fetch(Insert(t, u, role, content), prompt, u)
        == [Message(System, prompt)] + ToMessages(kept) + [Message(role, content)]
  {
    var before := Recent(t.rows, u);
    var kept := if |before| < HistoryLimit then before else before[1..];
    var t1 := Insert(t, u, role, content);
    var x := Row(t.nextId, u, role, content);
    assert t1.rows == t.rows + [x];
    RecentAfterInsert(t.rows, x, u);
    assert Recent(t1.rows, u) == kept + [x];
    ToMessagesSlices(kept, [x]);
    assert ToMessages(kept + [x]) == ToMessages(kept) + [Message(role, content)];
    assert Fetch(t1, prompt, u) == [Message(System, prompt)] + ToMessages(Recent(t1.rows, u));
  }

  /** The history after a new turn is stored: the window slides by one,
      dropping the oldest turn once ten are shown, and ends with the new turn. */
  lemma HistoryAfterInsert(t: Table, prompt: string, u: UserKey, role: Role, content: string)
    requires t.available && u.Some?
    ensures |Fetch(t, prompt, u)| <= HistoryLimit ==>
      Fetch(Insert(t, u, role, content), prompt, u) == Fetch(t, prompt, u) + [Message(role, content)]
    ensures |Fetch(t, prompt, u)| > HistoryLimit ==>
      Fetch(Insert(t, u, role, content), prompt, u) ==
      [Fetch(t, prompt, u)[0]] + Fetch(t, prompt, u)[2..] + [Message(role, content)]
  {
    var sys, m := Message(System, prompt), Message(role, content);
    var before := Recent(t.rows, u);
    var kept := if |before| < HistoryLimit then before else before[1..];
    var f, g := Fetch(t, prompt, u), Fetch(Insert(t, u, role, content), prompt, u);
    FetchAfterInsert(t, prompt, u, role, content);
    assert f == [sys] + ToMessages(before);
    if |before| < HistoryLimit {
      assert g == f + [m];
    } else {
      assert f[2..] == ToMessages(kept) by {
        assert f[2..] == ToMessages(before)[1..];
        ToMessagesSlices(before, []);
      }
      assert g == [f[0]] + f[2..] + [m];
    }
  }

  function Reverse(s: seq<Row>): (r: seq<Row>)
    ensures |r| == |s|
  {
    seq(|s|, k requires 0 <= k < |s| => s[|s| - 1 - k])
  }

  /** Python's `list.reverse()`: swap the two ends inwards. */
  method ReverseInPlace(a: array<Row>)
    modifies a
    ensures a[..] == Reverse(old(a[..]))
  {
    var n := a.Length;
    var lo, hi := 0, n;
    while lo + 1 < hi
      invariant 0 <= lo <= hi <= n && lo + hi == n
      invariant forall k :: 0 <= k < lo ==> a[k] == old(a[n - 1 - k])
      invariant forall k :: hi <= k < n ==> a[k] == old(a[n - 1 - k])
      invariant forall k :: lo <= k < hi ==> a[k] == old(a[k])
    {
      var first, last := a[lo], a[hi - 1];
      a[lo] := last;
      a[hi - 1] := first;
      lo, hi := lo + 1, hi - 1;
    }
  }

  /** Reversing the newest-first query result gives the history window. */
  lemma ReversedQueryIsRecent(rows: seq<Row>, u: UserKey)
    ensures Reverse(NewestFirst(rows, u)) == Recent(rows, u)
  {
    var s, r, b := UserRows(rows, u), Recent(rows, u), Reverse(NewestFirst(rows, u));
    forall k | 0 <= k < |b| ensures b[k] == r[k] {
      assert b[k] == s[|s| - |b| + k];
    }
  }

  /** The conversation table as the webhook process sees it. */
  class ConversationStore {
    var rows: seq<Row>
    var nextId: nat
    var available: bool

    function Value(): Table
      reads this
    {
      Table(rows, nextId, available)
    }

    ghost predicate Valid()
      reads this
    {
      WellFormed(Value())
    }

    /** `init_db` on an empty database, with the connection test of `get_db_connection`. */
    constructor (d: Deployment, urlConfigured: bool, driverConnects: bool)
      ensures Valid()
      ensures rows == [] && available == ConnectionAvailable(d, urlConfigured, driverConnects)
    {
      rows := [];
      nextId := 1;
      available := ConnectionAvailable(d, urlConfigured, driverConnects);
    }

    /** `salvar_mensagem(user_id, role, content)`. */
    method Save(u: UserKey, role: Role, content: string)
      requires Valid()
      modifies this
      ensures Valid()
      ensures Value() == Insert(old(Value()), u, role, content)
    {
      if available {
        rows := rows + [Row(nextId, u, role, content)];
        nextId := nextId + 1;
      }
    }

    /** `limpar_memoria(user_id)`. */
    method Clear(u: UserKey)
      requires Valid()
      modifies this
      ensures Valid()
      ensures Value() == Delete(old(Value()), u)
    {
      if available {
        rows := Filter(rows, u, false);
      }
    }

    /** `recuperar_historico(user_id)`: run the newest-first query, reverse the
        fetched rows in place, and append them one by one after the system entry. */
    method RecentHistory(prompt: string, u: UserKey) returns (messages: seq<Message>)
      requires Valid()
      ensures messages == Fetch(Value(), prompt, u)
    {
      if !available {
        return [Message(System, prompt)];
      }
      var fetched := NewestFirst(rows, u);
      var a := new Row[|fetched|](k requires 0 <= k < |fetched| => fetched[k]);
      assert a[..] == fetched;
      ReverseInPlace(a);
      var chronological := a[..];
      messages := [Message(System, prompt)];
      for i := 0 to |chronological|
        invariant messages == [Message(System, prompt)] + ToMessages(chronological[..i])
      {
        var row := chronological[i];
        messages := messages + [Message(row.role, row.content)];
        assert chronological[..i + 1] == chronological[..i] + [row];
        ToMessagesSlices(chronological[..i], [row]);
      }
      ReversedQueryIsRecent(rows, u);
      assert chronological[..|chronological|] == chronological;
    }
  }
}
