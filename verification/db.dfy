/**
 * The database layer's own logic: the cached connection, the wrapper that
 * guards every operation, and the text and parameters of the similarity search.
 */
module Db {
  import opened Wrappers
  import opened Text

  /** An open connection. */
  datatype Connection = Connection(handle: nat)

  /** What trying to connect would do: the driver import fails, `connect` raises, or a connection opens. */
  datatype ConnectAttempt = ImportFails | ConnectFails | Connects(conn: Connection)

  /** The module globals `_db_connection` and `_db_connection_failed`. */
  datatype CacheState = CacheState(connection: Option<Connection>, failed: bool)

  /** The two flags never say both "connected" and "failed". */
  predicate Consistent(s: CacheState) {
    !(s.connection.Some? && s.failed)
  }

  /** The result of one `get_db_connection` call. */
  datatype ConnectResult = ConnectResult(next: CacheState, returned: Option<Connection>, attempted: bool)

  /**
   * `get_db_connection` given `DATABASE_URL` (`url`) and what connecting
   * would do: a cached connection is returned as is; after a failure None is
   * returned; otherwise a missing or empty URL, a failed import or a failed
   * connect each set the failed flag.
   */
  function GetDbConnection(s: CacheState, url: Option<string>, attempt: ConnectAttempt): (r: ConnectResult)
    ensures s.connection.Some? ==> r == ConnectResult(s, s.connection, false)
    ensures s.connection.None? && s.failed ==> r == ConnectResult(s, None, false)
    ensures r.attempted <==> s.connection.None? && !s.failed && url.Some? && url.value != ""
    ensures s.connection.None? && !s.failed ==>
      (r.returned.None? <==> url.None? || url.value == "" || !attempt.Connects?)
    ensures r.returned.Some? && r.attempted ==> attempt == Connects(r.returned.value)
    ensures r.returned == r.next.connection
    ensures r.returned.None? ==> r.next.failed
    ensures Consistent(s) ==> Consistent(r.next)
  {
    if s.connection.Some? then ConnectResult(s, s.connection, false)
    else if s.failed then ConnectResult(s, None, false)
    else if url.None? || url.value == "" then ConnectResult(CacheState(None, true), None, false)
    else match attempt
      case Connects(c) => ConnectResult(CacheState(Some(c), false), Some(c), true)
      case _ => ConnectResult(CacheState(None, true), None, true)
  }

  /** The state after a series of calls, each with its URL and its would-be connect outcome. */
  function AfterCalls(s: CacheState, calls: seq<(Option<string>, ConnectAttempt)>): CacheState {
    if calls == [] then s
    else GetDbConnection(AfterCalls(s, calls[..|calls| - 1]), calls[|calls| - 1].0, calls[|calls| - 1].1).next
  }

  /**
   * After the first call the process either holds a connection for good or
   * has failed for good: later calls return the same connection, or None,
   * and never try to connect again.
   */
  lemma {:induction false} FirstCallDecides(s: CacheState, calls: seq<(Option<string>, ConnectAttempt)>)
    requires Consistent(s) && (s.connection.Some? || s.failed)
    ensures AfterCalls(s, calls) == s
    ensures forall i :: 0 <= i < |calls| ==> !GetDbConnection(AfterCalls(s, calls[..i]), calls[i].0, calls[i].1).attempted
  {
    if calls != [] {
      var init := calls[..|calls| - 1];
      FirstCallDecides(s, init);
      forall i | 0 <= i < |calls|
        ensures !GetDbConnection(AfterCalls(s, calls[..i]), calls[i].0, calls[i].1).attempted
      {
        if i < |init| {
          assert calls[..i] == init[..i];
          assert calls[i] == init[i];
        }
      }
    }
  }

  /** Every call's answer agrees with the cache, and the flags stay consistent. */
  lemma {:induction false} CallsKeepConsistent(s: CacheState, calls: seq<(Option<string>, ConnectAttempt)>)
    requires Consistent(s)
    ensures Consistent(AfterCalls(s, calls))
  {
    if calls != [] {
      CallsKeepConsistent(s, calls[..|calls| - 1]);
    }
  }

  /** The connection cache as the module's globals, updated across calls. */
  class ConnectionCache {
    var connection: Option<Connection>
    var failed: bool

    constructor ()
      ensures connection == None && !failed
    {
      connection, failed := None, false;
    }

    function State(): CacheState
      reads this
    {
      CacheState(connection, failed)
    }

    /** `get_db_connection`, updating the globals in place. */
    method Get(url: Option<string>, attempt: ConnectAttempt) returns (conn: Option<Connection>)
      requires Consistent(State())
      modifies this
      ensures State() == GetDbConnection(old(State()), url, attempt).next
      ensures conn == GetDbConnection(old(State()), url, attempt).returned
      ensures Consistent(State())
    {
      if connection.Some? {
        return connection;
      }
      if failed {
        return None;
      }
      if url.None? || url.value == "" {
        failed := true;
        return None;
      }
      match attempt {
        case Connects(c) =>
          connection := Some(c);
          return Some(c);
        case _ =>
          failed := true;
          return None;
      }
    }
  }

  // ---------------------------------------------------------------------
  // The operation wrapper

  /** What a wrapped operation does when called with the connection. */
  datatype Outcome<T> = Returned(value: T) | Raised(message: string)

  /** The wrapper's result: None, an empty list (the `-> list` annotation's default), or the operation's own value. */
  datatype Wrapped<T> = NoneValue | EmptyList | Value(value: T)

  /** The wrapper's result and whether it attempted a rollback. */
  datatype WrapResult<T> = WrapResult(result: Wrapped<T>, rolledBack: bool)

  /**
   * `db_operation` around an operation, given the connection
   * `get_db_connection` returned. Without a connection a list-annotated
   * operation gives an empty list and any other None; an operation that
   * raises is rolled back and gives None, whatever its annotation.
   */
  function DbOperation<T>(conn: Option<Connection>, listAnnotated: bool, op: Connection -> Outcome<T>): (r: WrapResult<T>)
    ensures r.result == NoneValue <==> (conn.None? && !listAnnotated) || (conn.Some? && op(conn.value).Raised?)
    ensures r.result == EmptyList <==> conn.None? && listAnnotated
    ensures r.rolledBack <==> conn.Some? && op(conn.value).Raised?
    ensures r.result.Value? ==> conn.Some? && op(conn.value) == Returned(r.result.value)
  {
    match conn
    case None => WrapResult(if listAnnotated then EmptyList else NoneValue, false)
    case Some(c) =>
      match op(c)
      case Returned(v) => WrapResult(Value(v), false)
      case Raised(_) => WrapResult(NoneValue, true)
  }

  // ---------------------------------------------------------------------
  // The similarity search query

  /** A query parameter: the vector text, the threshold or the limit. */
  datatype Param = TextParam(text: string) | RealParam(number: real) | IntParam(integer: int)

  const SelectHead := "SELECT content, metadata, embedding <-> "
  const SelectTail := " AS distance FROM documents"
  const WhereHead := " WHERE (embedding <-> "
  const WhereMiddle := ") < "
  const OrderHead := " ORDER BY distance LIMIT "
  const Placeholder := "%s"

  const SelectClause := SelectHead + Placeholder + SelectTail
  const WhereClause := WhereHead + Placeholder + WhereMiddle + Placeholder
  const OrderClause := OrderHead + Placeholder

  /** `"[" + ",".join(map(str, embedding)) + "]"`, with `show` the float formatting. */
  function VectorLiteral(embedding: seq<real>, show: real -> string): string {
    "[" + Join(",", seq(|embedding|, i requires 0 <= i < |embedding| => show(embedding[i]))) + "]"
  }

  /**
   * `search_rag_documents`'s query text and parameters. The threshold, when
   * given, adds a strict `<` filter and two parameters; the limit is always last.
   */
  method SearchQuery(embedding: seq<real>, show: real -> string, limit: int, threshold: Option<real>)
    returns (sql: string, params: seq<Param>)
    ensures sql == SelectClause + (if threshold.Some? then WhereClause else "") + OrderClause
    ensures threshold.None? ==> params == [TextParam(VectorLiteral(embedding, show)), IntParam(limit)]
    ensures threshold.Some? ==> params == [TextParam(VectorLiteral(embedding, show)), TextParam(VectorLiteral(embedding, show)),
                                           RealParam(threshold.value), IntParam(limit)]
  {
    sql := SelectClause;
    var vector := VectorLiteral(embedding, show);
    params := [TextParam(vector)];
    if threshold.Some? {
      sql := sql + WhereClause;
      params := params + [TextParam(vector), RealParam(threshold.value)];
    }
    sql := sql + OrderClause;
    params := params + [IntParam(limit)];
  }

  /** The number of `%s` placeholders in a query text. */
  function Placeholders(s: string): nat {
    if |s| < 2 then 0
    else (if s[0] == '%' && s[1] == 's' then 1 else 0) + Placeholders(s[1..])
  }

  lemma {:induction false} NoPercentNoPlaceholder(s: string)
    requires '%' !in s
    ensures Placeholders(s) == 0
  {
    if |s| >= 2 {
      assert s[1..][0] == s[1];
      assert forall c :: c in s[1..] ==> c in s;
      NoPercentNoPlaceholder(s[1..]);
    }
  }

  /** Counting splits at a boundary that does not cut a `%s` in two. */
  lemma {:induction false} PlaceholdersAppend(a: string, b: string)
    requires a == [] || a[|a| - 1] != '%'
    ensures Placeholders(a + b) == Placeholders(a) + Placeholders(b)
  {
    var ab := a + b;
    if a == [] {
      assert ab == b;
    } else if |a| == 1 {
      assert ab[0] == a[0] != '%';
      assert ab[1..] == b;
      if |ab| >= 2 {
        assert Placeholders(ab) == Placeholders(ab[1..]);
      }
    } else {
      assert ab[1..] == a[1..] + b;
      assert a[1..][|a[1..]| - 1] == a[|a| - 1];
      PlaceholdersAppend(a[1..], b);
      assert ab[0] == a[0] && ab[1] == a[1];
    }
  }

  lemma PlaceholderCount()
    ensures Placeholders(Placeholder) == 1 && Placeholder[1] != '%'
  {
    assert Placeholder[1..] == "s";
  }

  // The fixed pieces of the query contain no `%`.
  lemma SelectHeadHasNoPercent() ensures '%' !in SelectHead {}
  lemma SelectTailHasNoPercent() ensures '%' !in SelectTail {}
  lemma WhereHeadHasNoPercent() ensures '%' !in WhereHead {}
  lemma WhereMiddleHasNoPercent() ensures '%' !in WhereMiddle {}
  lemma OrderHeadHasNoPercent() ensures '%' !in OrderHead {}

  /** Appending a `%s` adds one placeholder and ends the text with `s`. */
  lemma AppendPlaceholder(x: string)
    requires x == [] || x[|x| - 1] != '%'
    ensures Placeholders(x + Placeholder) == Placeholders(x) + 1
    ensures (x + Placeholder)[|x + Placeholder| - 1] == 's'
  {
    PlaceholderCount();
    PlaceholdersAppend(x, Placeholder);
  }

  /** A `%s` after a text free of `%` gives exactly one placeholder. */
  lemma PlaceholderAfter(head: string)
    requires '%' !in head
    ensures Placeholders(head + Placeholder) == 1
  {
    NoPercentNoPlaceholder(head);
    AppendPlaceholder(head);
  }

  /** A `%s` between two texts free of `%` gives exactly one placeholder. */
  lemma OnePlaceholderBetween(head: string, tail: string)
    requires '%' !in head && '%' !in tail
    ensures Placeholders(head + Placeholder + tail) == 1
    ensures (head + Placeholder + tail)[|head + Placeholder + tail| - 1] != '%'
  {
    NoPercentNoPlaceholder(head);
    NoPercentNoPlaceholder(tail);
    AppendPlaceholder(head);
    PlaceholdersAppend(head + Placeholder, tail);
    var t := head + Placeholder + tail;
    if tail != [] {
      assert t[|t| - 1] == tail[|tail| - 1];
      assert tail[|tail| - 1] in tail;
    } else {
      assert t == head + Placeholder;
    }
  }

  lemma SelectClausePlaceholders()
    ensures Placeholders(SelectClause) == 1 && SelectClause[|SelectClause| - 1] != '%'
  {
    SelectHeadHasNoPercent();
    SelectTailHasNoPercent();
    OnePlaceholderBetween(SelectHead, SelectTail);
  }

  lemma WhereClausePlaceholders()
    ensures Placeholders(WhereClause) == 2 && WhereClause[|WhereClause| - 1] != '%'
  {
    WhereHeadHasNoPercent();
    WhereMiddleHasNoPercent();
    OnePlaceholderBetween(WhereHead, WhereMiddle);
    AppendPlaceholder(WhereHead + Placeholder + WhereMiddle);
  }

  lemma OrderClausePlaceholders()
    ensures Placeholders(OrderClause) == 1
  {
    OrderHeadHasNoPercent();
    PlaceholderAfter(OrderHead);
  }

  /**
   * The query has exactly one placeholder per parameter, with or without a
   * threshold, and always ends with the ordering and limit clause.
   */
  lemma SearchQueryWellFormed(threshold: Option<real>)
    ensures var sql := SelectClause + (if threshold.Some? then WhereClause else "") + OrderClause;
      && Placeholders(sql) == (if threshold.Some? then 4 else 2)
      && |sql| >= |OrderClause| && sql[|sql| - |OrderClause|..] == " ORDER BY distance LIMIT %s"
  {
    SelectClausePlaceholders();
    WhereClausePlaceholders();
    OrderClausePlaceholders();
    if threshold.Some? {
      var sw := SelectClause + WhereClause;
      PlaceholdersAppend(SelectClause, WhereClause);
      assert sw[|sw| - 1] == WhereClause[|WhereClause| - 1];
      PlaceholdersAppend(sw, OrderClause);
    } else {
      assert SelectClause + "" == SelectClause;
      PlaceholdersAppend(SelectClause, OrderClause);
    }
  }
}
