/** The two sides of the game (src/gomoku/board/player.py). */
module Players {
  import opened Wrappers

  /**
   * `PlayerType` with BLACK = 1 and WHITE = 2. A `Player` object carries
   * nothing but its type (its symbol is derived from it), so the type
   * stands for the player throughout the model.
   */
  datatype PlayerType = Black | White {

    /** The enum value, which is also the number stored in a grid cell. */
    function Value(): (v: int)
      ensures v == 1 || v == 2
      ensures (v == 1) <==> this == Black
    {
      if this == Black then 1 else 2
    }

    /** `get_opponent`: the other side. */
    function Opponent(): (o: PlayerType)
      ensures o != this
      ensures o.Value() == 3 - Value()
    {
      if this == Black then White else Black
    }

    /** The display symbol: a filled circle for black, a hollow one for white. */
    function Symbol(): (s: string)
      ensures |s| == 1
      ensures s[0] != ' ' && s[0] != '\n'
    {
      if this == Black then "\U{25CF}" else "\U{25CB}"
    }
  }

  /** `PlayerType(value)`: the type with that enum value, if any. */
  function FromValue(v: int): (t: Option<PlayerType>)
    ensures t.Some? <==> v == 1 || v == 2
    ensures t.Some? ==> t.value.Value() == v
  {
    if v == 1 then Some(Black) else if v == 2 then Some(White) else None
  }

  /** The right-hand operand of a Python `==` whose left side is a Player. */
  datatype Operand = PlayerOperand(kind: PlayerType) | IntOperand(n: int)

  /** `Player.__eq__`: false for anything that is not a Player, else compare types. */
  function PlayerEquals(self: PlayerType, other: Operand): (r: bool)
    ensures r <==> other == PlayerOperand(self)
  {
    match other
    case PlayerOperand(k) => self == k
    case IntOperand(_) => false
  }

  /**
   * Python's `a == b` on the two kinds of operand: a Player compares through
   * `Player.__eq__`; an int compares with an int by value, and with a Player
   * falls back on the reflected `Player.__eq__`, which is false.
   */
  function PyEquals(a: Operand, b: Operand): (r: bool)
    ensures r <==> a == b
  {
    match a
    case PlayerOperand(t) => PlayerEquals(t, b)
    case IntOperand(n) => b.IntOperand? && b.n == n
  }

  /** `get_opponent` is an involution. */
  lemma OpponentInvolution(t: PlayerType)
    ensures t.Opponent().Opponent() == t
    ensures t.Opponent() != t
  {
  }

  /** Two players are equal exactly when their types are. */
  lemma PlayerEqualsIffSameType(a: PlayerType, b: PlayerType)
    ensures PlayerEquals(a, PlayerOperand(b)) <==> a == b
  {
  }

  /** A player never equals a plain int, in particular not 1 or 2. */
  lemma PlayerNeverEqualsInt(a: PlayerType, n: int)
    ensures !PlayerEquals(a, IntOperand(n))
    ensures !PyEquals(PlayerOperand(a), IntOperand(n))
  {
  }

  /** The two sides show different symbols, so a rendered board tells their stones apart. */
  lemma SymbolsDistinguishSides(a: PlayerType, b: PlayerType)
    ensures a.Symbol() == b.Symbol() <==> a == b
  {
  }

  /** `FromValue` inverts `Value`. */
  lemma FromValueOfValue(t: PlayerType)
    ensures FromValue(t.Value()) == Some(t)
  {
  }
}
