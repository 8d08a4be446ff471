/** The arena's leaderboard and the player's rank on it: one plus the
    number of entries with strictly more clicks. */
module Leaderboard {

  /** A leaderboard entry. The time of the entry's last click is display
      data that the rank never reads and is not part of the model. */
  datatype Player = Player(id: string, name: string, clicks: nat)

  /** The mock board the arena loads when it mounts. */
  const MockLeaderboard: seq<Player> := [
    Player("1", "ClickMaster", 15420),
    Player("2", "TapTitan", 12890),
    Player("3", "SpeedDemon", 11230),
    Player("4", "FingerFury", 9870),
    Player("5", "ClickQueen", 8940)
  ]

  /** The entries with strictly more clicks than `clicks`, in board order
      (Array.prototype.filter). As a multiset it is exactly the board's
      entries above `clicks`, each as often as on the board. */
  function Above(board: seq<Player>, clicks: nat): (r: seq<Player>)
    ensures |r| <= |board|
    ensures forall p :: multiset(r)[p] == if p.clicks > clicks then multiset(board)[p] else 0
  {
    if board == [] then []
    else
      var rest := Above(board[1..], clicks);
      assert board == [board[0]] + board[1..];
      if board[0].clicks > clicks then [board[0]] + rest else rest
  }

  /** The player's place: one more than the number of entries ahead. */
  function Rank(board: seq<Player>, clicks: nat): (r: nat)
    ensures 1 <= r <= |board| + 1
  {
    |Above(board, clicks)| + 1
  }

  // ---------------------------------------------------------------------
  // Properties

  /** More clicks never give a worse (larger) rank. */
  lemma {:induction false} RankMonotone(board: seq<Player>, fewer: nat, more: nat)
    requires fewer <= more
    ensures Rank(board, more) <= Rank(board, fewer)
  {
    if board != [] {
      RankMonotone(board[1..], fewer, more);
    }
  }

  /** Rank 1 exactly when no entry has more clicks than the player. */
  lemma {:induction false} FirstPlace(board: seq<Player>, clicks: nat)
    ensures Rank(board, clicks) == 1 <==> forall i :: 0 <= i < |board| ==> board[i].clicks <= clicks
  {
    if board != [] {
      FirstPlace(board[1..], clicks);
      if Rank(board, clicks) == 1 {
        forall i | 0 <= i < |board| ensures board[i].clicks <= clicks {
          if i > 0 {
            assert board[i] == board[1..][i - 1];
          }
        }
      }
    }
  }

  /** Last place (one past the board) exactly when every entry has more
      clicks than the player. */
  lemma {:induction false} LastPlace(board: seq<Player>, clicks: nat)
    ensures Rank(board, clicks) == |board| + 1 <==> forall i :: 0 <= i < |board| ==> board[i].clicks > clicks
  {
    if board != [] {
      LastPlace(board[1..], clicks);
      if Rank(board, clicks) == |board| + 1 {
        forall i | 0 <= i < |board| ensures board[i].clicks > clicks {
          if i > 0 {
            assert board[i] == board[1..][i - 1];
          }
        }
      }
    }
  }

  /** With 10000 clicks against the mock board three entries are ahead
      (15420, 12890 and 11230), so the player is fourth. */
  lemma MockRankAt10000()
    ensures Rank(MockLeaderboard, 10000) == 4
  {
    var b := MockLeaderboard;
    assert Above(b[4..], 10000) == [];
    assert Above(b[3..], 10000) == [];
    assert Above(b[2..], 10000) == [b[2]];
    assert Above(b[1..], 10000) == [b[1], b[2]];
  }
}
