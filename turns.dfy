/** Players of the live game and the turn rotation of startPlayerTurn: with
    two or more players, walk the list circularly from the position after the
    current one and stop at the first player whose user is not blocked, giving
    up after one full lap. */
module Turns {
  import opened Common
  import opened Accounts

  /** A participant of the live game, `{ id, username, socketId }`. */
  datatype Player = Player(id: string, username: string, socketId: string)

  function PlayerIds(players: seq<Player>): seq<string> {
    seq(|players|, k requires 0 <= k < |players| => players[k].id)
  }

  ghost predicate DistinctIds(players: seq<Player>) {
    forall i, j :: 0 <= i < j < |players| ==> players[i].id != players[j].id
  }

  /** `getUserById(player.id).isBlocked`. A player missing from the table, which
      the server's invariant rules out, reads as not blocked. */
  function Blocked(users: seq<User>, p: Player): (b: bool)
    ensures b ==> exists k :: 0 <= k < |users| && users[k].id == p.id && users[k].isBlocked
  {
    match FindUser(users, p.id)
    case Some(k) => users[k].isBlocked
    case None => false
  }

  /** With distinct user ids, a player is blocked exactly when the one user
      carrying its id has the block flag set. */
  lemma BlockedIffFlagged(users: seq<User>, p: Player, k: nat)
    requires DistinctUserIds(users) && k < |users| && users[k].id == p.id
    ensures Blocked(users, p) <==> users[k].isBlocked
  {
  }

  /** The block flag of every player, in list order. */
  function BlockedFlags(users: seq<User>, players: seq<Player>): (f: seq<bool>)
    ensures |f| == |players| && forall k :: 0 <= k < |players| ==> f[k] == Blocked(users, players[k])
  {
    seq(|players|, k requires 0 <= k < |players| => Blocked(users, players[k]))
  }

  ghost predicate AllBlocked(blocked: seq<bool>) {
    forall k :: 0 <= k < |blocked| ==> blocked[k]
  }

  /** The position reached after `e` steps of the circular walk that starts at `s`. */
  function Walk(s: nat, e: nat, n: nat): (k: nat)
    requires 0 < n
    ensures k < n
  {
    (s + e) % n
  }

  /** x % n for 0 <= x < 2n, written out. */
  lemma ModOnce(x: nat, n: nat)
    requires 0 < n && x < 2 * n
    ensures x % n == if x < n then x else x - n
  {
    if x >= n {
      assert x == 1 * n + (x - n);
    }
  }

  /** Within one lap, the circular walk from `s` meets each position once. */
  lemma WalkInjective(s: nat, d1: nat, d2: nat, n: nat)
    requires s < n && d1 < n && d2 < n && Walk(s, d1, n) == Walk(s, d2, n)
    ensures d1 == d2
  {
    ModOnce(s + d1, n);
    ModOnce(s + d2, n);
  }

  /** One more step of the walk is one more position, wrapping at n. */
  lemma WalkStep(s: nat, e: nat, n: nat)
    requires s < n && e < n
    ensures (Walk(s, e, n) + 1) % n == Walk(s, e + 1, n)
  {
    ModOnce(s + e, n);
    ModOnce(s + e + 1, n);
    ModOnce(Walk(s, e, n) + 1, n);
  }

  /** Offset of position k on the circular walk from s. */
  function Offset(s: nat, k: nat, n: nat): (e: nat)
    requires s < n && k < n
    ensures e < n && Walk(s, e, n) == k
  {
    ModOnce(k + n - s, n);
    ModOnce(s + (k + n - s) % n, n);
    (k + n - s) % n
  }

  /** Offset, counted from `d`, of the first unblocked player on the circular
      walk from `start`, or None when the rest of the lap is blocked. */
  function ScanFrom(blocked: seq<bool>, start: nat, d: nat): (r: Option<nat>)
    requires start < |blocked| && d <= |blocked|
    ensures r.Some? ==> d <= r.value < |blocked| && !blocked[Walk(start, r.value, |blocked|)]
    ensures r.Some? ==> forall e :: d <= e < r.value ==> blocked[Walk(start, e, |blocked|)]
    ensures r.None? ==> forall e :: d <= e < |blocked| ==> blocked[Walk(start, e, |blocked|)]
    decreases |blocked| - d
  {
    if d == |blocked| then None
    else if !blocked[Walk(start, d, |blocked|)] then Some(d)
    else ScanFrom(blocked, start, d + 1)
  }

  /** The scan of a whole lap fails exactly when every player is blocked. */
  lemma ScanFailsIffAllBlocked(blocked: seq<bool>, start: nat)
    requires start < |blocked|
    ensures ScanFrom(blocked, start, 0).None? <==> AllBlocked(blocked)
  {
    var n := |blocked|;
    if ScanFrom(blocked, start, 0).None? {
      forall k | 0 <= k < n ensures blocked[k] {
        var e := Offset(start, k, n);
      }
    }
  }

  /** Scanning past a run of blocked players changes nothing. */
  lemma {:induction false} ScanPastBlocked(blocked: seq<bool>, start: nat, d: nat)
    requires start < |blocked| && d <= |blocked|
    requires forall e :: 0 <= e < d ==> blocked[Walk(start, e, |blocked|)]
    ensures ScanFrom(blocked, start, d) == ScanFrom(blocked, start, 0)
  {
    if d > 0 {
      ScanPastBlocked(blocked, start, d - 1);
    }
  }

  /** The search loop of startPlayerTurn: from position `s`, step circularly
      past blocked players; None when a whole lap meets only blocked ones. */
  method FindUnblocked(users: seq<User>, players: seq<Player>, s: nat) returns (found: Option<nat>)
    requires s < |players|
    ensures var d := ScanFrom(BlockedFlags(users, players), s, 0);
            found == if d.Some? then Some(Walk(s, d.value, |players|)) else None
    ensures found.Some? ==> found.value < |players| && !Blocked(users, players[found.value])
    ensures found.None? <==> AllBlocked(BlockedFlags(users, players))
  {
    var n := |players|;
    ghost var blocked := BlockedFlags(users, players);
    var next := s;
    var loopCount := 0;
    while loopCount < n && Blocked(users, players[next])
      invariant 0 <= loopCount < n
      invariant next == Walk(s, loopCount, n)
      invariant forall e :: 0 <= e < loopCount ==> blocked[Walk(s, e, n)]
      decreases n - loopCount
    {
      WalkStep(s, loopCount, n);
      next := (next + 1) % n;
      loopCount := loopCount + 1;
      if loopCount >= n {
        ScanPastBlocked(blocked, s, n);
        ScanFailsIffAllBlocked(blocked, s);
        return None;
      }
    }
    ScanPastBlocked(blocked, s, loopCount);
    ScanFailsIffAllBlocked(blocked, s);
    return Some(next);
  }

  /** The turn fields of the game state: currentPlayerIndex, currentPlayer, turnStartTime. */
  datatype Turn = Turn(index: nat, current: Option<Player>, startedAt: Option<int>)

  /** The turn fields after startPlayerTurn at time `now`, given each player's block flag. */
  function Rotate(blocked: seq<bool>, players: seq<Player>, t: Turn, now: int): (r: Turn)
    requires |blocked| == |players|
    ensures |players| == 0 ==> r == t
    ensures |players| == 1 ==> r == Turn(0, Some(players[0]), Some(now))
    ensures |players| >= 2 ==> r.index < |players|
    ensures |players| >= 2 && AllBlocked(blocked) ==> r == t.(index := (t.index + 1) % |players|)
    ensures |players| >= 2 && !AllBlocked(blocked) ==>
      r.current == Some(players[r.index]) && !blocked[r.index] && r.startedAt == Some(now)
  {
    var n := |players|;
    if n == 0 then t
    else if n == 1 then Turn(0, Some(players[0]), Some(now))
    else
      var s := (t.index + 1) % n;
      ScanFailsIffAllBlocked(blocked, s);
      match ScanFrom(blocked, s, 0)
      case Some(d) => Turn(Walk(s, d, n), Some(players[Walk(s, d, n)]), Some(now))
      case None => t.(index := s)
  }

  /** Rotate with two or more players, as the outcome of the scan from the
      position after the old index. */
  lemma RotateByScan(blocked: seq<bool>, players: seq<Player>, t: Turn, now: int)
    requires |blocked| == |players| >= 2
    ensures var n := |players|;
            var s := (t.index + 1) % n;
            var d := ScanFrom(blocked, s, 0);
            Rotate(blocked, players, t, now) ==
              if d.Some? then Turn(Walk(s, d.value, n), Some(players[Walk(s, d.value, n)]), Some(now))
              else t.(index := s)
  {
  }

  /** The multi-player branch of startPlayerTurn on the turn fields: the
      index advances by one, then the search for an unblocked player runs;
      when it finds one, that player becomes current and the turn starts now. */
  method AdvanceTurn(users: seq<User>, players: seq<Player>, t: Turn, now: int) returns (r: Turn)
    requires |players| >= 2
    ensures r == Rotate(BlockedFlags(users, players), players, t, now)
  {
    var n := |players|;
    RotateByScan(BlockedFlags(users, players), players, t, now);
    r := t.(index := (t.index + 1) % n);
    var found := FindUnblocked(users, players, r.index);
    if found.Some? {
      r := Turn(found.value, Some(players[found.value]), Some(now));
    }
  }

  /** The rotation stops at the FIRST unblocked player after the old index:
      every player the circular walk passes on the way is blocked. */
  lemma RotationSkipsOnlyBlocked(blocked: seq<bool>, players: seq<Player>, t: Turn, now: int)
    requires |blocked| == |players| >= 2 && !AllBlocked(blocked)
    ensures var n := |players|;
            var s := (t.index + 1) % n;
            var k := Rotate(blocked, players, t, now).index;
            forall e :: 0 <= e < Offset(s, k, n) ==> blocked[Walk(s, e, n)]
  {
    var n := |players|;
    var s := (t.index + 1) % n;
    ScanFailsIffAllBlocked(blocked, s);
    var d := ScanFrom(blocked, s, 0).value;
    var k := Walk(s, d, n);
    WalkInjective(s, d, Offset(s, k, n), n);
  }

  /** With two or more players, while some other position holds an unblocked
      player, the index never stays where it was and lands on an unblocked
      player. This holds for an old index out of range too, as leaveGame can
      leave it. It is a claim about the index only: see RotationCanRepeatPlayer. */
  lemma RotationMovesOn(blocked: seq<bool>, players: seq<Player>, t: Turn, now: int, other: nat)
    requires |blocked| == |players| >= 2
    requires other < |players| && other != t.index && !blocked[other]
    ensures Rotate(blocked, players, t, now).index != t.index
    ensures !blocked[Rotate(blocked, players, t, now).index]
  {
    var n := |players|;
    var s := (t.index + 1) % n;
    ScanFailsIffAllBlocked(blocked, s);
    if t.index >= n {
      // An index left out of range by leaveGame: the new one is in range.
      return;
    }
    var d := ScanFrom(blocked, s, 0).value;
    var eOther := Offset(s, other, n);
    var eSelf := Offset(s, t.index, n);
    ModOnce(t.index + 1, n);
    ModOnce(s + (n - 1), n);
    WalkInjective(s, eSelf, n - 1, n);
    assert d <= eOther;
    if Walk(s, d, n) == t.index {
      WalkInjective(s, d, eSelf, n);
    }
  }

  /** After leaveGame removes a player before the current one, the index is
      not re-clamped and no longer points at the current player. Players
      [P1, P2, P3] with P3 current at index 2; P1 leaves, giving [P2, P3] with
      the index still 2. The next rotation moves to (2 + 1) % 2 = 1, which is
      P3 again, although P2 is unblocked: the same player gets two turns in a
      row. */
  lemma RotationCanRepeatPlayer(now: int)
    ensures var p2 := Player("2", "jugador2", "s2");
            var p3 := Player("3", "jugador3", "s3");
            var t := Turn(2, Some(p3), Some(0));
            var r := Rotate([false, false], [p2, p3], t, now);
            r.index == 1 && r.current == t.current
  {
    assert ScanFrom([false, false], 1, 0) == Some(0);
  }
}
