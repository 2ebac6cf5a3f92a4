/** The clamped halving probe over a sorted table, in its three variants.  Keys are
    integers: a detail level, or a string's rank in the order of strcasecmp. */
module Probe {

  ghost predicate Ascending(table: seq<int>) {
    forall i, j :: 0 <= i < j < |table| ==> table[i] < table[j]
  }

  /** How many entries lie below `x`. */
  function Below(table: seq<int>, x: int): (c: nat)
    ensures c <= |table|
    ensures forall i :: 0 <= i < c ==> table[i] < x
    ensures c < |table| ==> x <= table[c]
  {
    if table == [] || x <= table[0] then 0 else 1 + Below(table[1..], x)
  }

  /** How often a distance can be halved, rounding up, before it is one. */
  function Halvings(d: nat): nat {
    if d <= 1 then 0 else 1 + Halvings((d + 1) / 2)
  }

  function Power2(k: nat): nat {
    if k == 0 then 1 else 2 * Power2(k - 1)
  }

  /** The number of halvings is the logarithm, rounded up. */
  lemma {:induction false} HalvingsIsLog(d: nat, k: nat)
    requires d <= Power2(k)
    ensures Halvings(d) <= k
    decreases k
  {
    if d > 1 {
      assert k > 0;
      HalvingsIsLog((d + 1) / 2, k - 1);
    }
  }

  lemma AboveFrom(table: seq<int>, x: int, i: nat)
    requires Ascending(table) && i < |table|
    ensures table[i] < x <==> i < Below(table, x)
    ensures table[i] == x ==> i == Below(table, x)
    ensures table[i] > x && i == Below(table, x) ==> x !in table
  {
    var c := Below(table, x);
    if i == c && table[i] > x {
      forall k | 0 <= k < |table|
        ensures table[k] != x
      {
      }
    }
  }

  lemma NotPresent(table: seq<int>, x: int)
    requires Ascending(table)
    ensures x in table <==> Below(table, x) < |table| && table[Below(table, x)] == x
  {
    var c := Below(table, x);
    if c < |table| && table[c] > x {
      AboveFrom(table, x, c);
    }
  }

  /** Steps still possible: the remaining halvings, or the walk by single entries. */
  function StepsLeft(d: nat, walk: nat): nat {
    if d > 1 then Halvings(d) + 4 else walk
  }

  /** Single steps up to `c` (and one beyond), or down to it. */
  function WalkToCeiling(pos: nat, c: nat): nat {
    if pos < c then c - pos + 1 else pos - c
  }

  function WalkToFloor(pos: nat, c: nat, present: bool): nat {
    if present then (if pos < c then c - pos else pos - c)
    else if pos < c then c - 1 - pos else pos - c + 1
  }

  /** Where the two level probes begin, and where the keyword probe does. */
  function FirstIndex(entries: nat): int {
    entries / 2 - 1
  }

  function FirstKeywordIndex(entries: nat): int {
    (entries + 1) / 2 - 1
  }

  /** The level probes begin inside the table exactly when it has two entries or more,
      the keyword probe when it has one. */
  lemma BeginsInside(entries: nat)
    ensures 0 <= FirstIndex(entries) < entries <==> entries >= 2
    ensures 0 <= FirstKeywordIndex(entries) < entries <==> entries >= 1
  {
  }

  /** `jnl_dl_description_fetch`: the exact entry, else the next higher, else the last,
      after logarithmically many rounds. */
  method DescriptionFetch(table: seq<int>, level: int) returns (pos: nat, ghost rounds: nat)
    requires |table| >= 2 && Ascending(table)
    ensures pos < |table|
    ensures level in table ==> table[pos] == level
    ensures level !in table && level < table[|table| - 1] ==> table[pos] > level && (pos == 0 || table[pos - 1] < level)
    ensures level !in table && level > table[|table| - 1] ==> pos == |table| - 1
    ensures rounds <= Halvings(|table| / 2) + 5
  {
    ghost var c := Below(table, level);
    NotPresent(table, level);
    var distance := |table| / 2;
    BeginsInside(|table|);
    pos := FirstIndex(|table|);
    rounds := 0;
    while table[pos] != level
      invariant 0 <= pos < |table| && 1 <= distance
      invariant pos <= c + distance + 2 && c <= pos + distance + 2
      invariant rounds + StepsLeft(distance, WalkToCeiling(pos, c)) <= Halvings(|table| / 2) + 4
      decreases StepsLeft(distance, WalkToCeiling(pos, c))
    {
      AboveFrom(table, level, pos);
      rounds := rounds + 1;
      var prev := pos;
      distance := (distance + 1) / 2;
      var next := if table[pos] > level then pos - distance else pos + distance;
      if next > |table| - 1 {
        next := |table| - 1;
      } else if next < 0 {
        next := 0;
      }
      pos := next;
      if pos == prev {
        return;
      }
      AboveFrom(table, level, pos);
      if distance == 1 {
        if table[pos] < level && level < table[prev] {
          return prev, rounds;
        }
      }
    }
  }

  /** `jnl_dl_level_fetch`: the exact entry, else the next lower, else the first. */
  method LevelFetch(table: seq<int>, description: int) returns (pos: nat, ghost rounds: nat)
    requires |table| >= 2 && Ascending(table)
    ensures pos < |table|
    ensures description in table ==> table[pos] == description
    ensures description !in table && description > table[0] ==>
              table[pos] < description && (pos == |table| - 1 || table[pos + 1] > description)
    ensures description !in table && description < table[0] ==> pos == 0
    ensures rounds <= Halvings(|table| / 2) + 5
  {
    ghost var c := Below(table, description);
    NotPresent(table, description);
    var distance := |table| / 2;
    BeginsInside(|table|);
    pos := FirstIndex(|table|);
    rounds := 0;
    while description != table[pos]
      invariant 0 <= pos < |table| && 1 <= distance
      invariant pos <= c + distance + 2 && c <= pos + distance + 2
      invariant rounds + StepsLeft(distance, WalkToFloor(pos, c, description in table)) <= Halvings(|table| / 2) + 4
      decreases StepsLeft(distance, WalkToFloor(pos, c, description in table))
    {
      AboveFrom(table, description, pos);
      rounds := rounds + 1;
      var prev := pos;
      distance := (distance + 1) / 2;
      var next := if description < table[pos] then pos - distance else pos + distance;
      if next > |table| - 1 {
        next := |table| - 1;
      }
      if next < 0 {
        next := 0;
      }
      pos := next;
      if pos == prev {
        return;
      }
      AboveFrom(table, description, pos);
      if distance == 1 {
        if description < table[pos] && description > table[prev] {
          return prev, rounds;
        }
      }
    }
  }

  /** `keyword_locate`: the index of the keyword, or a negative value when it is absent. */
  method KeywordLocate(table: seq<int>, keyword: int) returns (index: int, ghost rounds: nat)
    requires |table| >= 1 && Ascending(table)
    ensures keyword in table ==> 0 <= index < |table| && table[index] == keyword
    ensures keyword !in table ==> index < 0
    ensures rounds <= Halvings((|table| + 1) / 2) + 5
  {
    ghost var c := Below(table, keyword);
    NotPresent(table, keyword);
    var entries := |table|;
    var distance := (entries + 1) / 2;
    index := FirstKeywordIndex(entries);
    rounds := 0;
    while keyword != table[index]
      invariant 0 <= index < entries && 1 <= distance
      invariant index <= c + distance + 2 && c <= index + distance + 2
      invariant rounds + StepsLeft(distance, WalkToFloor(index, c, keyword in table)) <= Halvings((entries + 1) / 2) + 4
      decreases StepsLeft(distance, WalkToFloor(index, c, keyword in table))
    {
      AboveFrom(table, keyword, index);
      rounds := rounds + 1;
      var previous := index;
      distance := (distance + 1) / 2;
      index := index + (if keyword < table[index] then -distance else distance);
      index := if index >= entries then entries - 1 else index;
      index := if index < 0 then 0 else index;
      if index == previous {
        return -1, rounds;
      }
      AboveFrom(table, keyword, index);
      if distance == 1 {
        if table[index] > keyword && table[previous] < keyword {
          return -2, rounds;
        }
      }
    }
  }

  const INT_MIN: int := -0x8000_0000
  const INT_MAX: int := 0x7fff_ffff

  /** The levels of jnlDL_Level_Descriptions: assertion, result, diagnostic, progress,
      verbose, stack, encyclopedic. */
  const LEVELS: seq<int> := [INT_MIN, INT_MIN + 1, INT_MIN + 2, 0, INT_MAX / 4, INT_MAX / 2, INT_MAX]

  /** On the shipped table every int has an entry at or above it, so the fetch never
      falls back to the last entry, and it takes at most seven rounds. */
  method ShippedDescription(level: int) returns (entry: int, ghost rounds: nat)
    requires INT_MIN <= level <= INT_MAX
    ensures entry in LEVELS && entry >= level
    ensures rounds <= 7
    ensures forall other :: other in LEVELS && other >= level ==> other >= entry
  {
    var pos, spent := DescriptionFetch(LEVELS, level);
    entry, rounds := LEVELS[pos], spent;
    assert Halvings(3) == 1 + Halvings(2) == 2;
    assert forall k :: 0 <= k < pos ==> LEVELS[k] <= LEVELS[pos - 1];
    forall other | other in LEVELS && other >= level
      ensures other >= entry
    {
      var k :| 0 <= k < |LEVELS| && LEVELS[k] == other;
    }
  }
}
