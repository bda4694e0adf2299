/**
 * The chess clock (src/gomoku/game/time_manager.py). Every reading of the
 * wall clock is the parameter `now`, in whole seconds.
 */
module TimeManagers {
  import opened Players

  /** `max(0, stored - elapsed)`: what is left of `stored` after `elapsed` seconds. */
  function Deduct(stored: int, elapsed: int): int {
    if stored - elapsed >= 0 then stored - elapsed else 0
  }

  /** A map with an entry for Black and one for White has an entry for every player. */
  lemma BothPlayers(m: map<PlayerType, int>)
    requires Black in m && White in m
    ensures forall p: PlayerType :: p in m
  {
    forall p: PlayerType
      ensures p in m
    {
      match p
      case Black =>
      case White =>
    }
  }

  /** The two readings `get_time_state` reports. */
  datatype TimeState = TimeState(black: int, white: int)

  class TimeManager {
    const timeLimit: int
    /** `self.time_remaining`: the stored seconds of each player, updated in place. */
    var timeRemaining: map<PlayerType, int>
    var lastMoveTime: int
    var currentPlayer: PlayerType

    /**
     * Both players have an entry. With a limit of at least 0, no stored time
     * is negative.
     */
    ghost predicate Valid()
      reads this
    {
      (forall p: PlayerType :: p in timeRemaining) &&
      (timeLimit >= 0 ==> forall p :: p in timeRemaining ==> timeRemaining[p] >= 0)
    }

    /** `TimeManager(time_limit)`, started at `now`: both players at the limit, Black to move. */
    constructor (timeLimit: int, now: int)
      ensures Valid()
      ensures this.timeLimit == timeLimit
      ensures timeRemaining == map[Black := timeLimit, White := timeLimit]
      ensures lastMoveTime == now && currentPlayer == Black
    {
      this.timeLimit := timeLimit;
      timeRemaining := map[Black := timeLimit, White := timeLimit];
      lastMoveTime := now;
      currentPlayer := Black;
      new;
      BothPlayers(timeRemaining);
    }

    /**
     * `switch_player(new_player)` at `now`. A switch to the player already
     * on move changes nothing. A real switch charges the outgoing player for
     * the seconds since the last switch (not below 0), so it stores exactly
     * what `get_time_remaining` showed for that player at `now`; it restarts
     * the turn at `now` and hands it over. The other player's time is kept,
     * and with a limit of at least 0 and a clock that does not run
     * backwards no stored time grows.
     */
    method SwitchPlayer(newPlayer: PlayerType, now: int)
      requires Valid()
      modifies this
      ensures Valid()
      ensures newPlayer == old(currentPlayer) ==>
        timeRemaining == old(timeRemaining) && lastMoveTime == old(lastMoveTime) && currentPlayer == old(currentPlayer)
      ensures newPlayer != old(currentPlayer) ==>
        && timeRemaining == old(timeRemaining)[old(currentPlayer) := old(GetTimeRemaining(currentPlayer, now))]
        && lastMoveTime == now && currentPlayer == newPlayer
      ensures timeRemaining.Keys == old(timeRemaining).Keys
      ensures forall p :: p in timeRemaining && p != old(currentPlayer) ==> timeRemaining[p] == old(timeRemaining)[p]
      ensures timeLimit >= 0 && now >= old(lastMoveTime) ==> forall p :: p in timeRemaining ==> timeRemaining[p] <= old(timeRemaining)[p]
    {
      if currentPlayer != newPlayer {
        var elapsed := now - lastMoveTime;
        timeRemaining := timeRemaining[currentPlayer := Deduct(timeRemaining[currentPlayer], elapsed)];
        lastMoveTime := now;
        currentPlayer := newPlayer;
      }
    }

    /**
     * `get_time_remaining(player)` at `now`. The player on move sees the
     * stored time less the seconds of the running turn, never below 0 and,
     * with a clock that does not run backwards, never above a stored time
     * of at least 0; the other player sees the stored time.
     */
    function GetTimeRemaining(p: PlayerType, now: int): (r: int)
      requires Valid()
      reads this
      ensures p == currentPlayer ==> r >= 0
      ensures p == currentPlayer && now >= lastMoveTime && timeRemaining[p] >= 0 ==> r <= timeRemaining[p]
      ensures p == currentPlayer && 0 <= now - lastMoveTime <= timeRemaining[p] ==> r + (now - lastMoveTime) == timeRemaining[p]
      ensures p == currentPlayer && now - lastMoveTime >= timeRemaining[p] ==> r == 0
      ensures p != currentPlayer ==> r == timeRemaining[p]
      ensures timeLimit >= 0 ==> r >= 0
    {
      if p == currentPlayer then Deduct(timeRemaining[p], now - lastMoveTime) else timeRemaining[p]
    }

    /**
     * `get_time_state()` at `now`: Black's and White's readings. The player
     * not on move reads the stored time, and with a limit of at least 0
     * neither reading is negative.
     */
    function GetTimeState(now: int): (s: TimeState)
      requires Valid()
      reads this
      ensures currentPlayer == Black ==> s.white == timeRemaining[White] && s.black >= 0
      ensures currentPlayer == White ==> s.black == timeRemaining[Black] && s.white >= 0
      ensures timeLimit >= 0 ==> s.black >= 0 && s.white >= 0
    {
      TimeState(GetTimeRemaining(Black, now), GetTimeRemaining(White, now))
    }

    /** `reset()` at `now`: both players back at the limit, Black to move from `now`. */
    method Reset(now: int)
      modifies this
      ensures Valid()
      ensures timeRemaining == map[Black := timeLimit, White := timeLimit]
      ensures lastMoveTime == now && currentPlayer == Black
    {
      timeRemaining := map[Black := timeLimit, White := timeLimit];
      lastMoveTime := now;
      currentPlayer := Black;
      BothPlayers(timeRemaining);
    }
  }
}
