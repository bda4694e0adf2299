/**
 * The hexadecimal-style coordinate codec (src/gomoku/utils/coordinate.py):
 * '1'..'9' name indices 0..8 and 'a'..'f' name 9..14. board.py builds the
 * same two tables (lines 13-15) and uses them the same way, so this one
 * definition serves both.
 */
module Coordinates {
  import opened Wrappers

  /**
   * `hex_map`: the comprehension `{str(i): i-1 for i in range(1, 10)}` updated
   * with `{c: i+9 for i, c in enumerate('abcdef')}`, written out.
   */
  const HexMap: map<string, int> := map["1" := 0, "2" := 1, "3" := 2, "4" := 3, "5" := 4, "6" := 5, "7" := 6, "8" := 7, "9" := 8, "a" := 9, "b" := 10, "c" := 11, "d" := 12, "e" := 13, "f" := 14]

  /** `reverse_hex_map = {v: k for k, v in hex_map.items()}`, written out. */
  const ReverseHexMap: map<int, string> := map[0 := "1", 1 := "2", 2 := "3", 3 := "4", 4 := "5", 5 := "6", 6 := "7", 7 := "8", 8 := "9", 9 := "a", 10 := "b", 11 := "c", 12 := "d", 13 := "e", 14 := "f"]

  /** The fifteen keys in index order. */
  const Keys: seq<string> := ["1", "2", "3", "4", "5", "6", "7", "8", "9", "a", "b", "c", "d", "e", "f"]

  /** ASCII case folding, as `str.lower` does on the characters that can reach a key. */
  function LowerChar(c: char): char {
    if 'A' <= c <= 'Z' then ((c as int) + 32) as char else c
  }

  function Lower(s: string): (r: string)
    ensures |r| == |s|
    ensures forall i :: 0 <= i < |s| ==> r[i] == LowerChar(s[i])
  {
    seq(|s|, i requires 0 <= i < |s| => LowerChar(s[i]))
  }

  /**
   * `to_index`: None where the dictionary lookup raises KeyError; otherwise
   * the position of the lower-cased string among the fifteen keys.
   */
  function ToIndex(coord: string): (r: Option<int>)
    ensures r.Some? ==> 0 <= r.value < 15 && Keys[r.value] == Lower(coord)
  {
    var k := Lower(coord);
    if k in HexMap then KeyIndex(k); Some(HexMap[k]) else None
  }

  /**
   * `to_coordinate`: None where the reverse lookup raises KeyError, which is
   * exactly off 0..14; otherwise the one-character key that `hex_map` maps
   * back to the index.
   */
  function ToCoordinate(index: int): (r: Option<string>)
    ensures r.Some? <==> 0 <= index < 15
    ensures r.Some? ==> |r.value| == 1 && r.value == Keys[index]
    ensures r.Some? ==> r.value in HexMap && HexMap[r.value] == index
  {
    ReverseDomain();
    ReverseListsKeys();
    KeysIndexMap();
    if index in ReverseHexMap then Some(ReverseHexMap[index]) else None
  }

  /** `is_valid_coordinate`: exactly where `to_index` succeeds, and only on one-character strings. */
  predicate IsValidCoordinate(coord: string): (v: bool)
    ensures v <==> ToIndex(coord).Some?
    ensures v ==> |coord| == 1
  {
    KeyShape(Lower(coord));
    Lower(coord) in HexMap
  }

  /** A key of the table sits in `Keys` at the index the table gives it. */
  lemma KeyIndex(k: string)
    requires k in HexMap
    ensures 0 <= HexMap[k] < 15 && Keys[HexMap[k]] == k
  {
    MapDomainIsKeys();
    KeysIndexMap();
  }

  /** Each table is the inverse of the other, over the fifteen keys and indices 0..14. */
  lemma TablesAgree()
    ensures forall i :: 0 <= i < 15 ==> Keys[i] in HexMap && HexMap[Keys[i]] == i
    ensures forall i :: i in ReverseHexMap <==> 0 <= i < 15
    ensures forall i :: 0 <= i < 15 ==> ReverseHexMap[i] == Keys[i]
    ensures forall k :: k in HexMap <==> k in Keys
  {
    KeysIndexMap();
    ReverseDomain();
    ReverseListsKeys();
    MapDomainIsKeys();
  }

  lemma KeysIndexMap()
    ensures forall i :: 0 <= i < 15 ==> Keys[i] in HexMap && HexMap[Keys[i]] == i
  {
  }

  lemma ReverseDomain()
    ensures forall i :: i in ReverseHexMap <==> 0 <= i < 15
  {
  }

  lemma ReverseListsKeys()
    ensures forall i :: 0 <= i < 15 ==> ReverseHexMap[i] == Keys[i]
  {
  }

  lemma MapDomainIsKeys()
    ensures forall k :: k in HexMap <==> k in Keys
  {
  }

  /** `to_index` maps '1'..'9' to 0..8 and 'a'..'f', in either case, to 9..14. */
  lemma ToIndexValues(c: char)
    ensures '1' <= c <= '9' ==> ToIndex([c]) == Some(c as int - '1' as int)
    ensures 'a' <= c <= 'f' ==> ToIndex([c]) == Some(c as int - 'a' as int + 9)
    ensures 'A' <= c <= 'F' ==> ToIndex([c]) == Some(c as int - 'A' as int + 9)
  {
    var k := LowerChar(c);
    assert Lower([c]) == [k];
    if '1' <= k <= '9' {
      var i := k as int - '1' as int;
      KeyAt(i);
      assert [k] == Keys[i];
    } else if 'a' <= k <= 'f' {
      var i := k as int - 'a' as int + 9;
      KeyAt(i);
      assert [k] == Keys[i];
    }
  }

  lemma KeyAt(i: int)
    requires 0 <= i < 15
    ensures Keys[i] in HexMap && HexMap[Keys[i]] == i
  {
    TablesAgree();
  }

  /** `to_index` does not distinguish a string from its lower-case form. */
  lemma ToIndexCaseInsensitive(s: string)
    ensures ToIndex(s) == ToIndex(Lower(s))
    ensures IsValidCoordinate(s) == IsValidCoordinate(Lower(s))
  {
    assert Lower(Lower(s)) == Lower(s);
  }

  /** `to_coordinate` succeeds exactly on 0..14, and `to_index` undoes it. */
  lemma IndexRoundTrip(i: int)
    ensures ToCoordinate(i).Some? <==> 0 <= i < 15
    ensures 0 <= i < 15 ==> ToIndex(ToCoordinate(i).value) == Some(i)
  {
    TablesAgree();
    if 0 <= i < 15 {
      assert Lower(Keys[i]) == Keys[i];
    }
  }

  /** For a valid coordinate, `to_coordinate(to_index(s)) == s.lower()`. */
  lemma CoordinateRoundTrip(s: string)
    requires IsValidCoordinate(s)
    ensures ToIndex(s).Some?
    ensures ToCoordinate(ToIndex(s).value) == Some(Lower(s))
  {
    TablesAgree();
  }

  /**
   * `is_valid_coordinate(s)` holds exactly when `to_index(s)` succeeds, which
   * is exactly when s is one character among 1-9, a-f and A-F.
   */
  lemma ValidCoordinateIff(s: string)
    ensures IsValidCoordinate(s) <==> ToIndex(s).Some?
    ensures IsValidCoordinate(s) <==> |s| == 1 && (('1' <= s[0] <= '9') || ('a' <= s[0] <= 'f') || ('A' <= s[0] <= 'F'))
  {
    KeyShape(Lower(s));
    if |s| == 1 {
      assert s == [s[0]];
      ToIndexValues(s[0]);
    }
  }

  /** Every key of the table is one character among 1-9 and a-f. */
  lemma KeyShape(k: string)
    ensures k in HexMap ==> |k| == 1 && (('1' <= k[0] <= '9') || ('a' <= k[0] <= 'f'))
  {
    MapDomainIsKeys();
  }

  /** A sequence without repetitions has as many distinct elements as entries. */
  lemma {:induction false} DistinctCardinality(s: seq<string>)
    requires forall p, q :: 0 <= p < q < |s| ==> s[p] != s[q]
    ensures |set x | x in s| == |s|
  {
    if s != [] {
      DistinctCardinality(s[1..]);
      assert (set x | x in s) == (set x | x in s[1..]) + {s[0]};
      assert s[0] !in s[1..];
    }
  }

  /** The table has exactly 15 entries, and no two keys share an index. */
  lemma HexMapInjective()
    ensures |HexMap| == 15
    ensures forall k1, k2 :: k1 in HexMap && k2 in HexMap && HexMap[k1] == HexMap[k2] ==> k1 == k2
  {
    TablesAgree();
    DistinctCardinality(Keys);
    assert HexMap.Keys == set x | x in Keys;
  }
}
