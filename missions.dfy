/** Daily mission generation (generateDailyMissions) and motivational
    messages (getMotivationalMessage). Math.random is replaced by injected
    values: the order the shuffle leaves the catalog in, and the number
    Math.random returned. */
module Missions {
  import opened Activity

  const MISSIONS_PER_DAY := 3

  /** The five mission templates, in the order the source lists them. */
  function Catalog(): (catalog: seq<MissionSeed>)
    ensures |catalog| == 5
  {
    [ MissionSeed("Corrida Matinal", "Corra 3 km hoje", 3, 100, "Sunrise", Distance),
      MissionSeed("Conquistador", "Conquiste 2 territórios", 2, 150, "Flag", Territory),
      MissionSeed("Velocista", "Atinja 12 km/h de velocidade média", 12, 120, "Zap", Speed),
      MissionSeed("Resistência", "Corra por 30 minutos", 30, 130, "Timer", Time),
      MissionSeed("Explorador", "Percorra 5 km em qualquer atividade", 5, 150, "Compass", Distance) ]
  }

  /** `order` is a permutation of the positions 0 .. n - 1: what a sort
      leaves behind, whatever its comparator answers. */
  predicate IsOrdering(order: seq<nat>, n: nat) {
    && |order| == n
    && (forall i :: 0 <= i < n ==> order[i] < n)
    && (forall i, j :: 0 <= i < j < n ==> order[i] != order[j])
  }

  /** The sequence in which element order[i] of `s` has moved to position i. */
  function Arrange<T>(s: seq<T>, order: seq<nat>): (r: seq<T>)
    requires IsOrdering(order, |s|)
    ensures |r| == |s|
    ensures forall i :: 0 <= i < |s| ==> r[i] == s[order[i]]
  {
    seq(|s|, i requires 0 <= i < |s| => s[order[i]])
  }

  /** The in-place sort of the missions array, with the comparator's
      outcome given as the permutation it produces. */
  method SortInPlace<T>(a: array<T>, order: seq<nat>)
    requires IsOrdering(order, a.Length)
    modifies a
    ensures a[..] == Arrange(old(a[..]), order)
  {
    var before := a[..];
    for i := 0 to a.Length
      invariant forall k :: 0 <= k < i ==> a[k] == before[order[k]]
    {
      a[i] := before[order[i]];
    }
  }

  /** generateDailyMissions: builds the catalog array, sorts it in place in
      the injected order, and returns its first three entries. */
  method GenerateDailyMissions(order: seq<nat>) returns (missions: seq<MissionSeed>)
    requires IsOrdering(order, |Catalog()|)
    ensures missions == Arrange(Catalog(), order)[..MISSIONS_PER_DAY]
    ensures DailyMissionsValid(missions)
  {
    var catalog := Catalog();
    var all := new MissionSeed[5] [catalog[0], catalog[1], catalog[2], catalog[3], catalog[4]];
    assert all[..] == catalog;
    SortInPlace(all, order);
    missions := all[..MISSIONS_PER_DAY];
    DailyMissionsAreValid(order);
  }

  /** Three different catalog entries, each with a positive target and a
      positive reward. */
  ghost predicate DailyMissionsValid(missions: seq<MissionSeed>) {
    && |missions| == MISSIONS_PER_DAY
    && (forall i :: 0 <= i < |missions| ==> missions[i] in Catalog())
    && (forall i, j :: 0 <= i < j < |missions| ==> missions[i] != missions[j])
    && (forall i :: 0 <= i < |missions| ==> missions[i].targetValue > 0 && missions[i].xpReward > 0)
  }

  /** Whatever order the shuffle leaves, the first three entries make a
      valid day of missions. */
  lemma DailyMissionsAreValid(order: seq<nat>)
    requires IsOrdering(order, |Catalog()|)
    ensures DailyMissionsValid(Arrange(Catalog(), order)[..MISSIONS_PER_DAY])
  {
    var catalog := Catalog();
    var picked := Arrange(catalog, order)[..MISSIONS_PER_DAY];
    forall i | 0 <= i < |picked|
      ensures picked[i] in catalog && picked[i].targetValue > 0 && picked[i].xpReward > 0
    {
      CatalogEntryValid(order[i]);
    }
    forall i, j | 0 <= i < j < |picked|
      ensures picked[i] != picked[j]
    {
      CatalogTitlesDiffer(order[i], order[j]);
    }
  }

  lemma CatalogEntryValid(k: nat)
    requires k < |Catalog()|
    ensures Catalog()[k] in Catalog()
    ensures Catalog()[k].targetValue > 0 && Catalog()[k].xpReward > 0
  {
  }

  lemma CatalogTitlesDiffer(k: nat, l: nat)
    requires k < |Catalog()| && l < |Catalog()| && k != l
    ensures Catalog()[k].title != Catalog()[l].title
  {
  }

  /** Every catalog entry can come first: for each entry there is an order
      that puts it at the head of the day's missions. */
  lemma EveryMissionCanLead(k: nat)
    requires k < |Catalog()|
    ensures exists order :: IsOrdering(order, |Catalog()|) && Arrange(Catalog(), order)[0] == Catalog()[k]
  {
    var order := [k] + seq(4, i requires 0 <= i < 4 => if i < k then i else i + 1);
    assert IsOrdering(order, 5);
    assert Arrange(Catalog(), order)[0] == Catalog()[k];
  }

  /** The four moments a motivational message is sent for. */
  datatype MessageKind = Morning | Evening | TerritoryLost | Ranking

  /** The four messages of each kind, in the order the source lists them. */
  function Messages(kind: MessageKind): (options: seq<string>)
    ensures |options| == 4
  {
    match kind
    case Morning => [
      "☀️ Bom dia, conquistador! Sua cidade te espera.",
      "🔥 Hora de dominar! Que territórios você vai tomar hoje?",
      "💪 Novo dia, novas conquistas. Vamos lá!",
      "🏃 A cidade é sua. Prove isso hoje."]
    case Evening => [
      "🌆 Hora do rush. Que tal dominar a avenida no caminho pra casa?",
      "🔥 Seu território não se defende sozinho. Corra agora!",
      "💪 Termine o dia com uma conquista épica.",
      "🏃 Última chance de subir no ranking hoje!"]
    case TerritoryLost => [
      "🚨 Alguém tomou seu território! Vai deixar?",
      "⚠️ Território perdido! Hora da reconquista.",
      "💥 Você foi desafiado! Mostre quem manda.",
      "🔥 Seu território foi invadido. Defenda agora!"]
    case Ranking => [
      "📈 Você está subindo! Continue assim.",
      "📉 Cuidado! Você caiu no ranking. Recupere sua posição!",
      "🏆 Você está no Top 10! Mantenha o ritmo.",
      "⚡ Falta pouco para o Top 5. Corra mais!"]
  }

  /** getMotivationalMessage: the message at floor(random * 4), where
      `random` is the value Math.random returned, in [0, 1). The pick is
      always one of the four messages of the requested kind. */
  function MotivationalMessage(kind: MessageKind, random: real): (message: string)
    requires 0.0 <= random < 1.0
    ensures message in Messages(kind)
    ensures exists i :: 0 <= i < 4 && message == Messages(kind)[i] && i as real <= random * 4.0 < (i + 1) as real
  {
    var options := Messages(kind);
    var index := (random * |options| as real).Floor;
    options[index]
  }

  /** Each message of a kind is picked for some value of Math.random: the
      one at position i for any value in [i/4, (i+1)/4). */
  lemma EveryMessageReachable(kind: MessageKind, i: nat)
    requires i < 4
    ensures MotivationalMessage(kind, i as real / 4.0) == Messages(kind)[i]
  {
    assert (i as real / 4.0) * 4.0 == i as real;
  }
}
