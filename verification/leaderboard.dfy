/**
 * Leaderboard ranks: one plus the number of entries strictly greater than
 * the user's own. A user without an entry compares against SQL NULL, which
 * no entry exceeds, so such a user is ranked 1.
 */
module Leaderboard {

  /** The users whose entry is strictly greater than `v`. */
  function Above<K>(board: map<K, int>, v: int): set<K>
  {
    set u | u in board && board[u] > v
  }

  function RankIn<K>(board: map<K, int>, user: K): (r: nat)
    ensures r >= 1
    ensures user in board ==> r <= |board|
    ensures user !in board ==> r == 1
  {
    if user in board then
      AboveExcludesSelf(board, user);
      1 + |Above(board, board[user])|
    else 1
  }

  lemma SubsetCardinality<K>(a: set<K>, b: set<K>)
    requires a <= b
    ensures |a| <= |b|
    ensures a < b ==> |a| < |b|
  {
    if a < b {
      var y :| y in b && y !in a;
      SubsetCardinality(a, b - {y});
    } else {
      assert a == b;
    }
  }

  lemma AboveExcludesSelf<K>(board: map<K, int>, user: K)
    requires user in board
    ensures |Above(board, board[user])| < |board|
  {
    var a := Above(board, board[user]);
    assert a <= board.Keys - {user};
    SubsetCardinality(a, board.Keys - {user});
  }

  /** Rank 1 exactly when nobody is strictly ahead. */
  lemma RankOneIffTop<K>(board: map<K, int>, user: K)
    requires user in board
    ensures RankIn(board, user) == 1 <==> forall u :: u in board ==> board[u] <= board[user]
  {
    if forall u :: u in board ==> board[u] <= board[user] {
      assert Above(board, board[user]) == {};
    } else {
      var u :| u in board && board[u] > board[user];
      assert u in Above(board, board[user]);
    }
  }

  /** Strictly more points means a strictly better (smaller) rank; equal
      points share a rank. */
  lemma RankOrdersUsers<K>(board: map<K, int>, a: K, b: K)
    requires a in board && b in board
    ensures board[a] > board[b] ==> RankIn(board, a) < RankIn(board, b)
    ensures board[a] == board[b] ==> RankIn(board, a) == RankIn(board, b)
  {
    if board[a] > board[b] {
      var sa, sb := Above(board, board[a]), Above(board, board[b]);
      assert sa <= sb;
      assert a in sb && a !in sa;
      assert sa <= sb - {a};
      SubsetCardinality(sa, sb);
    }
  }

  /** Raising one's own entry never worsens one's rank. */
  lemma RaisingEntryNeverWorsensRank<K>(board: map<K, int>, user: K, v: int)
    requires user in board && v >= board[user]
    ensures RankIn(board[user := v], user) <= RankIn(board, user)
  {
    var b' := board[user := v];
    var s', s := Above(b', v), Above(board, board[user]);
    forall u | u in s'
      ensures u in s
    {
      assert u != user;
    }
    assert s' <= s;
    SubsetCardinality(s', s);
  }

  /** Ranks count entries, not distinct values: a newcomer strictly ahead of
      `user` pushes `user` down exactly one place, and a newcomer at or
      below `user`'s entry leaves the rank as it was. */
  lemma NewcomerShiftsRankByOne<K>(board: map<K, int>, user: K, other: K, v: int)
    requires user in board && other !in board
    ensures RankIn(board[other := v], user) ==
      RankIn(board, user) + (if v > board[user] then 1 else 0)
  {
    var b' := board[other := v];
    var a, a' := Above(board, board[user]), Above(b', board[user]);
    assert other != user;
    if v > board[user] {
      assert a' == a + {other};
      assert other !in a;
    } else {
      assert a' == a;
    }
  }
}
