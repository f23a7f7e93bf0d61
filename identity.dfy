/** Cosmetic helpers: the honorific title for a level (getUserTitle) and the
    map colour of a friend's territory (getFriendTerritoryColor). */
module Identity {

  /** The six title tiers, lowest first. */
  datatype Title = Iniciante | Explorador | Conquistador | Dominador | Lenda | Imperador {

    /** Position of the tier, 0 for the lowest. */
    function Rank(): nat {
      match this
      case Iniciante => 0
      case Explorador => 1
      case Conquistador => 2
      case Dominador => 3
      case Lenda => 4
      case Imperador => 5
    }

    /** The text the source returns for the tier. */
    function Name(): string {
      match this
      case Iniciante => "Iniciante"
      case Explorador => "Explorador"
      case Conquistador => "Conquistador"
      case Dominador => "Dominador"
      case Lenda => "Lenda"
      case Imperador => "Imperador"
    }
  }

  /** The level at which each tier above the first begins. */
  const TIER_STARTS: seq<int> := [10, 25, 50, 75, 100]

  /** `level` lies in the band of tier t: at or above the tier's start (the
      lowest tier has none) and below the next tier's start (the top tier
      has none). */
  predicate InTierBand(level: int, t: Title) {
    && (t.Rank() == 0 || TIER_STARTS[t.Rank() - 1] <= level)
    && (t.Rank() == 5 || level < TIER_STARTS[t.Rank()])
  }

  /** getUserTitle: the if-chain over the cut points 10, 25, 50, 75, 100.
      Every integer level gets a title; 0 and negative levels get the
      lowest one. */
  function UserTitle(level: int): (title: Title)
    ensures InTierBand(level, title)
    ensures level < 10 ==> title == Iniciante
  {
    if level < 10 then Iniciante
    else if level < 25 then Explorador
    else if level < 50 then Conquistador
    else if level < 75 then Dominador
    else if level < 100 then Lenda
    else Imperador
  }

  /** The bands do not overlap: a level lies in exactly the band of the
      title UserTitle gives it. */
  lemma UserTitleIsBand(level: int, t: Title)
    ensures UserTitle(level) == t <==> InTierBand(level, t)
  {
  }

  /** A higher level never has a lower title. */
  lemma UserTitleMonotone(l1: int, l2: int)
    requires l1 <= l2
    ensures UserTitle(l1).Rank() <= UserTitle(l2).Rank()
  {
  }

  /** Different tiers have different names, so the returned text alone
      identifies the tier. */
  lemma TitleNamesDistinct(t1: Title, t2: Title)
    requires t1 != t2
    ensures t1.Name() != t2.Name()
  {
  }

  /** A UTF-16 code unit, the unit `split('')` breaks a string into and the
      value `charCodeAt(0)` returns. */
  type CodeUnit = x: int | 0 <= x < 0x1_0000

  /** The seven territory colours, blue first. */
  const PALETTE: seq<string> := ["#3B82F6", "#10B981", "#8B5CF6", "#F59E0B", "#EF4444", "#06B6D4", "#EC4899"]

  /** The `reduce` step by step: `acc` plus each code unit, left to right. */
  function HashFrom(acc: nat, units: seq<CodeUnit>): nat
    decreases |units|
  {
    if units == [] then acc else HashFrom(acc + units[0], units[1..])
  }

  /** The sum of the code units, as a reference definition independent of
      the fold order. */
  function CodeUnitSum(units: seq<CodeUnit>): nat {
    if units == [] then 0 else CodeUnitSum(units[..|units| - 1]) + units[|units| - 1]
  }

  lemma {:induction false} CodeUnitSumAppend(u: seq<CodeUnit>, v: seq<CodeUnit>)
    ensures CodeUnitSum(u + v) == CodeUnitSum(u) + CodeUnitSum(v)
    decreases |v|
  {
    if v == [] {
      assert u + v == u;
    } else {
      assert (u + v)[..|u + v| - 1] == u + v[..|v| - 1];
      CodeUnitSumAppend(u, v[..|v| - 1]);
    }
  }

  /** The left fold from `acc` adds exactly the sum of the code units. */
  lemma {:induction false} HashFromIsSum(acc: nat, units: seq<CodeUnit>)
    ensures HashFrom(acc, units) == acc + CodeUnitSum(units)
    decreases |units|
  {
    if units != [] {
      HashFromIsSum(acc + units[0], units[1..]);
      CodeUnitSumAppend([units[0]], units[1..]);
      assert [units[0]] + units[1..] == units;
      assert CodeUnitSum([units[0]]) == units[0] by {
        assert [units[0]][..0] == [];
      }
    }
  }

  /** getFriendTerritoryColor: the palette entry at (sum of the id's code
      units) mod 7. The same id always gives the same colour, the colour is
      always one of the seven, and the empty id gives the first (blue). */
  function FriendTerritoryColor(userId: seq<CodeUnit>): (color: string)
    ensures color == PALETTE[CodeUnitSum(userId) % |PALETTE|]
    ensures color in PALETTE
    ensures userId == [] ==> color == "#3B82F6"
  {
    var hash := HashFrom(0, userId);
    HashFromIsSum(0, userId);
    PALETTE[hash % |PALETTE|]
  }

  /** The sum sees only which code units an id holds, each as often as it
      occurs, and not their order. */
  lemma {:induction false} CodeUnitSumOfMultiset(u: seq<CodeUnit>, v: seq<CodeUnit>)
    requires multiset(u) == multiset(v)
    ensures CodeUnitSum(u) == CodeUnitSum(v)
    decreases |u|
  {
    if u != [] {
      var n := |u| - 1;
      var x := u[n];
      assert u == u[..n] + [x];
      assert x in multiset(v);
      var k :| 0 <= k < |v| && v[k] == x;
      var rest := v[..k] + v[k + 1..];
      assert v == v[..k] + [x] + v[k + 1..];
      assert multiset(u[..n]) == multiset(rest) by {
        assert multiset(u) == multiset(u[..n]) + multiset{x};
        assert multiset(v) == multiset(v[..k]) + multiset{x} + multiset(v[k + 1..]);
        assert multiset(rest) == multiset(v[..k]) + multiset(v[k + 1..]);
        assert multiset(u[..n]) == multiset(u) - multiset{x};
        assert multiset(rest) == multiset(v) - multiset{x};
      }
      CodeUnitSumOfMultiset(u[..n], rest);
      CodeUnitSumAppend(u[..n], [x]);
      CodeUnitSumAppend(v[..k] + [x], v[k + 1..]);
      CodeUnitSumAppend(v[..k], [x]);
      CodeUnitSumAppend(v[..k], v[k + 1..]);
      assert CodeUnitSum([x]) == x by {
        assert [x][..0] == [];
      }
    }
  }

  /** The colour depends only on which code units an id holds, each as often
      as it occurs, and not on their order: ids that are rearrangements of
      one another get the same colour. */
  lemma FriendTerritoryColorIgnoresOrder(u: seq<CodeUnit>, v: seq<CodeUnit>)
    requires multiset(u) == multiset(v)
    ensures FriendTerritoryColor(u) == FriendTerritoryColor(v)
  {
    CodeUnitSumOfMultiset(u, v);
  }

  /** In particular, swapping two halves of an id keeps its colour. */
  lemma FriendTerritoryColorSwapHalves(u: seq<CodeUnit>, v: seq<CodeUnit>)
    ensures FriendTerritoryColor(u + v) == FriendTerritoryColor(v + u)
  {
    FriendTerritoryColorIgnoresOrder(u + v, v + u);
  }
}
