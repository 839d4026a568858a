/** The linear quest chain and the courier PIN (src/contexts/QuestContext.tsx). The
    localStorage copy of the quests is not modelled. */
module Quests {
  import opened Optional
  import opened Text

  datatype Quest = Quest(id: string, title: string, description: string, completed: bool, locked: bool)

  /** The four quests: only the first is open at the start. */
  const InitialQuests: seq<Quest> := [
    Quest("quest-1", "Přijeď na depo", "Najdi depot a naskladni zásilky do dodávky", false, false),
    Quest("quest-2", "Doruč zásilku na výdejní box", "Doruč zásilku jako kurýr do výdejního boxu", false, true),
    Quest("quest-3", "Vydej balíky v trafice", "Vydej správné balíky podle čísel v trafice", false, true),
    Quest("quest-4", "Vrať se na depo - Závěrečný test", "Ukaž, co ses naučil! Odpověz na 5 otázek během 60 sekund", false, true)
  ]

  /** A quest the player can work on now. */
  predicate Active(q: Quest) {
    !q.completed && !q.locked
  }

  /** `findIndex(q => !q.completed && !q.locked)` from index i on. */
  function FindActiveFrom(qs: seq<Quest>, i: nat): (r: Option<nat>)
    requires i <= |qs|
    ensures r.Some? ==> i <= r.value < |qs| && Active(qs[r.value])
                        && forall j :: i <= j < r.value ==> !Active(qs[j])
    ensures r.None? ==> forall j :: i <= j < |qs| ==> !Active(qs[j])
    decreases |qs| - i
  {
    if i == |qs| then None
    else if Active(qs[i]) then Some(i)
    else FindActiveFrom(qs, i + 1)
  }

  function FindActive(qs: seq<Quest>): Option<nat>
    ensures FindActive(qs).Some? ==> FindActive(qs).value < |qs|
  {
    FindActiveFrom(qs, 0)
  }

  /** `currentQuest`: the first quest that is neither completed nor locked, if any. */
  function CurrentQuest(qs: seq<Quest>): (r: Option<Quest>)
    ensures r.None? <==> forall j :: 0 <= j < |qs| ==> !Active(qs[j])
    ensures r.Some? ==> exists i :: 0 <= i < |qs| && qs[i] == r.value && Active(qs[i])
                                    && forall j :: 0 <= j < i ==> !Active(qs[j])
  {
    match FindActive(qs)
    case Some(i) => Some(qs[i])
    case None => None
  }

  /** `completeCurrentQuest`: the active quest becomes completed and the next one
      unlocked; with no active quest nothing changes. */
  function CompleteCurrentQuest(qs: seq<Quest>): (r: seq<Quest>)
    ensures |r| == |qs|
    ensures FindActive(qs).None? ==> r == qs
    ensures FindActive(qs).Some? ==>
              var i := FindActive(qs).value;
              && r[i] == qs[i].(completed := true)
              && (i + 1 < |qs| ==> r[i + 1] == qs[i + 1].(locked := false))
              && forall j :: 0 <= j < |qs| && j != i && j != i + 1 ==> r[j] == qs[j]
    ensures forall j :: 0 <= j < |qs| ==>
              (r[j].id == qs[j].id && r[j].title == qs[j].title && r[j].description == qs[j].description)
  {
    match FindActive(qs)
    case None => qs
    case Some(i) =>
      var done := qs[i := qs[i].(completed := true)];
      if i + 1 < |done| then done[i + 1 := done[i + 1].(locked := false)] else done
  }

  /** The shape the chain keeps: quests before k completed (and unlocked), quest k
      active, every quest after it locked and not completed. k == |qs| means all
      are completed. */
  predicate ChainAt(qs: seq<Quest>, k: nat) {
    && k <= |qs|
    && (forall i :: 0 <= i < k ==> qs[i].completed && !qs[i].locked)
    && (k < |qs| ==> Active(qs[k]))
    && (forall i :: k < i < |qs| ==> !qs[i].completed && qs[i].locked)
  }

  lemma InitialChain()
    ensures ChainAt(InitialQuests, 0)
  {
  }

  /** In a chain at k the current quest is quest k, or none when all are done. */
  lemma CurrentOfChain(qs: seq<Quest>, k: nat)
    requires ChainAt(qs, k)
    ensures k < |qs| ==> FindActive(qs) == Some(k) && CurrentQuest(qs) == Some(qs[k])
    ensures k == |qs| ==> FindActive(qs).None? && CurrentQuest(qs).None?
  {
    if k < |qs| {
      var r := FindActive(qs);
      assert Active(qs[k]);
      assert r.Some?;
      assert forall j :: 0 <= j < k ==> !Active(qs[j]);
      assert r.value == k;
    }
  }

  /** Completing keeps the chain shape and moves it one quest on. */
  lemma CompleteAdvancesChain(qs: seq<Quest>, k: nat)
    requires ChainAt(qs, k)
    ensures ChainAt(CompleteCurrentQuest(qs), if k < |qs| then k + 1 else k)
  {
    CurrentOfChain(qs, k);
  }

  function CompleteTimes(qs: seq<Quest>, n: nat): (r: seq<Quest>)
    ensures |r| == |qs|
    decreases n
  {
    if n == 0 then qs else CompleteTimes(CompleteCurrentQuest(qs), n - 1)
  }

  lemma {:induction false} CompleteTimesChain(qs: seq<Quest>, k: nat, n: nat)
    requires ChainAt(qs, k)
    ensures ChainAt(CompleteTimes(qs, n), if k + n <= |qs| then k + n else |qs|)
    decreases n
  {
    if n > 0 {
      CompleteAdvancesChain(qs, k);
      CompleteTimesChain(CompleteCurrentQuest(qs), if k < |qs| then k + 1 else k, n - 1);
    }
  }

  /** One completion per quest finishes the whole chain: every quest completed and
      no current quest left. */
  lemma ChainFinishes()
    ensures var qs := CompleteTimes(InitialQuests, |InitialQuests|);
            (forall i :: 0 <= i < |qs| ==> qs[i].completed) && CurrentQuest(qs).None?
  {
    InitialChain();
    CompleteTimesChain(InitialQuests, 0, |InitialQuests|);
    CurrentOfChain(CompleteTimes(InitialQuests, |InitialQuests|), |InitialQuests|);
  }

  /** `quests.find(q => q.id === id)` */
  function FindById(qs: seq<Quest>, id: string): (r: Option<Quest>)
    ensures r.Some? ==> r.value in qs && r.value.id == id
    ensures r.None? ==> forall j :: 0 <= j < |qs| ==> qs[j].id != id
    decreases |qs|
  {
    if |qs| == 0 then None
    else if qs[0].id == id then Some(qs[0])
    else FindById(qs[1..], id)
  }

  /** The quest state of the provider: the chain and the courier PIN. */
  datatype QuestState = QuestState(quests: seq<Quest>, courierPin: Option<string>)

  /** `resetQuests`: back to the initial chain, no PIN. */
  function ResetQuests(s: QuestState): (r: QuestState)
    ensures ChainAt(r.quests, 0) && |r.quests| == 4 && r.courierPin.None?
    ensures r == QuestState(InitialQuests, None)
  {
    InitialChain();
    QuestState(InitialQuests, None)
  }

  /** `generateCourierPin` with its four random draws: four decimal digits, stored
      and returned. */
  function GenerateCourierPin(s: QuestState, draws: seq<real>): (r: (QuestState, string))
    requires |draws| == 4 && UnitDraws(draws)
    ensures |r.1| == 4 && AllDigits(r.1)
    ensures forall i :: 0 <= i < 4 ==> DigitValue(r.1[i]) == DrawDigit(draws[i])
    ensures r.0 == s.(courierPin := Some(r.1))
  {
    var pin := DigitString(draws);
    (s.(courierPin := Some(pin)), pin)
  }

  /** After a reset the current quest is the first one again. */
  lemma ResetRestartsChain(s: QuestState)
    ensures CurrentQuest(ResetQuests(s).quests) == Some(InitialQuests[0])
  {
    CurrentOfChain(InitialQuests, 0);
  }

  /** Every four-digit PIN can come out of `generateCourierPin`. */
  lemma EveryPinReachable(s: QuestState, pin: string)
    requires |pin| == 4 && AllDigits(pin)
    ensures UnitDraws(DrawsFor(pin)) && GenerateCourierPin(s, DrawsFor(pin)).1 == pin
  {
    DigitStringOnto(pin);
  }
}
