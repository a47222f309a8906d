/**
 * The `comments` table behind the comments API. The database is abstract:
 * rows are kept in insertion order, the identifiers and timestamps it
 * generates are inputs, and a failing query is an input flag.
 */
module CommentStore {
  import opened Wrappers

  /** A row of the `comments` table; `createdAt` is the insert time in milliseconds. */
  datatype Comment = Comment(
    id: string,
    name: string,
    text: string,
    replyTo: Option<string>,
    likes: int,
    createdAt: int)

  function Ids(rows: seq<Comment>): set<string> {
    set c | c in rows :: c.id
  }

  /** No two rows share an id. */
  predicate UniqueIds(cs: seq<Comment>) {
    forall i, j :: 0 <= i < j < |cs| ==> cs[i].id != cs[j].id
  }

  /** A row can go in front of a list with unique ids exactly when its id is not among them. */
  lemma UniqueIdsCons(c: Comment, cs: seq<Comment>)
    ensures UniqueIds([c] + cs) <==> UniqueIds(cs) && c.id !in Ids(cs)
  {
    var l := [c] + cs;
    if UniqueIds(l) {
      forall i, j | 0 <= i < j < |cs| ensures cs[i].id != cs[j].id {
        assert l[i + 1] == cs[i] && l[j + 1] == cs[j];
      }
      forall x | x in cs ensures x.id != c.id {
        var k :| 0 <= k < |cs| && cs[k] == x;
        assert l[0] == c && l[k + 1] == x;
      }
      assert UniqueIds(cs);
    }
    if UniqueIds(cs) && c.id !in Ids(cs) {
      forall i, j | 0 <= i < j < |l| ensures l[i].id != l[j].id {
        assert l[j] == cs[j - 1];
        assert l[j].id in Ids(cs);
        if i > 0 {
          assert l[i] == cs[i - 1];
        } else {
          assert l[i] == c;
        }
      }
      assert UniqueIds(l);
    }
  }

  /** Ordered by `created_at` descending: no row is newer than one before it. */
  predicate NewestFirst(cs: seq<Comment>) {
    forall i, j :: 0 <= i < j < |cs| ==> cs[i].createdAt >= cs[j].createdAt
  }

  /** Places `c` before the first row that is not newer than it. */
  function InsertNewestFirst(c: Comment, cs: seq<Comment>): (r: seq<Comment>)
    ensures multiset(r) == multiset(cs) + multiset{c}
    ensures |r| == |cs| + 1
    ensures r[0] == c || (cs != [] && r[0] == cs[0])
  {
    if cs == [] || cs[0].createdAt <= c.createdAt then
      [c] + cs
    else
      assert cs == [cs[0]] + cs[1..];
      [cs[0]] + InsertNewestFirst(c, cs[1..])
  }

  /** Inserting into a newest-first list keeps it newest first. */
  lemma {:induction false} InsertKeepsNewestFirst(c: Comment, cs: seq<Comment>)
    requires NewestFirst(cs)
    ensures NewestFirst(InsertNewestFirst(c, cs))
  {
    var r := InsertNewestFirst(c, cs);
    if cs == [] || cs[0].createdAt <= c.createdAt {
      assert r == [c] + cs;
      forall i, j | 0 <= i < j < |r| ensures r[i].createdAt >= r[j].createdAt {
        assert r[j] == cs[j - 1];
        if i > 0 {
          assert r[i] == cs[i - 1];
        } else {
          assert cs[0].createdAt >= cs[j - 1].createdAt;
        }
      }
    } else {
      var tail := cs[1..];
      var rest := InsertNewestFirst(c, tail);
      InsertKeepsNewestFirst(c, tail);
      assert r == [cs[0]] + rest;
      forall i, j | 0 <= i < j < |r| ensures r[i].createdAt >= r[j].createdAt {
        var x := rest[j - 1];
        assert r[j] == x;
        if i > 0 {
          assert r[i] == rest[i - 1];
        } else {
          assert x in multiset(rest);
          if x != c {
            assert x in multiset(tail);
            var k :| 0 <= k < |tail| && tail[k] == x;
            assert cs[k + 1] == x;
          }
        }
      }
    }
  }

  /** Inserting a row with a fresh id into a list with unique ids keeps the ids unique. */
  lemma {:induction false} InsertKeepsUniqueIds(c: Comment, cs: seq<Comment>)
    requires UniqueIds(cs) && c.id !in Ids(cs)
    ensures UniqueIds(InsertNewestFirst(c, cs))
  {
    if cs == [] || cs[0].createdAt <= c.createdAt {
      UniqueIdsCons(c, cs);
    } else {
      var tail := cs[1..];
      assert cs == [cs[0]] + tail;
      UniqueIdsCons(cs[0], tail);
      assert Ids(tail) <= Ids(cs);
      InsertKeepsUniqueIds(c, tail);
      var rest := InsertNewestFirst(c, tail);
      assert cs[0].id != c.id by { assert cs[0] in cs; }
      forall x | x in rest ensures x.id != cs[0].id {
        assert x in multiset(rest);
        if x != c {
          assert x in multiset(tail);
          assert x in tail;
        }
      }
      UniqueIdsCons(cs[0], rest);
    }
  }

  /**
   * The result of `select('*').order('created_at', { ascending: false })`:
   * every row, each exactly once, newest first. The database leaves the order
   * of rows with equal timestamps open; this model keeps one of them.
   */
  function OrderNewestFirst(rows: seq<Comment>): (r: seq<Comment>)
    ensures multiset(r) == multiset(rows)
    ensures NewestFirst(r)
  {
    if rows == [] then []
    else
      assert rows == [rows[0]] + rows[1..];
      InsertKeepsNewestFirst(rows[0], OrderNewestFirst(rows[1..]));
      InsertNewestFirst(rows[0], OrderNewestFirst(rows[1..]))
  }

  /** Ordering the rows keeps their ids unique. */
  lemma {:induction false} OrderKeepsUniqueIds(rows: seq<Comment>)
    requires UniqueIds(rows)
    ensures UniqueIds(OrderNewestFirst(rows))
  {
    if rows != [] {
      var tail := rows[1..];
      assert rows == [rows[0]] + tail;
      UniqueIdsCons(rows[0], tail);
      OrderKeepsUniqueIds(tail);
      var sorted := OrderNewestFirst(tail);
      forall x | x in sorted ensures x.id != rows[0].id {
        assert x in multiset(sorted);
        assert x in tail;
      }
      assert rows[0].id !in Ids(sorted);
      InsertKeepsUniqueIds(rows[0], sorted);
    }
  }

  /** The table: rows in insertion order, with `id` as the primary key. */
  class CommentTable {
    var rows: seq<Comment>

    ghost predicate Valid()
      reads this
    {
      UniqueIds(rows)
    }

    constructor ()
      ensures Valid() && rows == []
    {
      rows := [];
    }

    /**
     * `insert(...).select().single()`: the database supplies `id` and `createdAt`.
     * The insert fails when the database reports an error (`fault`) or when the
     * generated id is already taken (a primary-key violation); otherwise the new
     * row is appended and returned.
     */
    method Insert(name: string, text: string, replyTo: Option<string>, likes: int, id: string, createdAt: int, fault: bool)
      returns (r: Option<Comment>)
      requires Valid()
      modifies this
      ensures Valid()
      ensures r.Some? <==> !fault && id !in Ids(old(rows))
      ensures r.Some? ==> r.value == Comment(id, name, text, replyTo, likes, createdAt) && rows == old(rows) + [r.value]
      ensures r.None? ==> rows == old(rows)
    {
      if fault || id in Ids(rows) {
        return None;
      }
      var row := Comment(id, name, text, replyTo, likes, createdAt);
      assert forall i :: 0 <= i < |rows| ==> rows[i].id in Ids(rows);
      rows := rows + [row];
      r := Some(row);
    }

    /** `select('*').order('created_at', { ascending: false })`; `fault` is a database error. */
    method SelectNewestFirst(fault: bool) returns (r: Option<seq<Comment>>)
      requires Valid()
      ensures fault <==> r.None?
      ensures r.Some? ==> UniqueIds(r.value)
      ensures r.Some? ==> multiset(r.value) == multiset(rows) && NewestFirst(r.value)
      ensures r.Some? ==> r.value == OrderNewestFirst(rows)
    {
      if fault {
        return None;
      }
      OrderKeepsUniqueIds(rows);
      r := Some(OrderNewestFirst(rows));
    }
  }
}
