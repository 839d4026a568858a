/** The score record and its three updates (src/contexts/ScoreContext.tsx). The
    `lastUpdated` time stamp and the localStorage copy are not modelled. */
module Score {

  datatype ScoreData = ScoreData(totalScore: int, miniGamesCompleted: nat)

  /** A fresh game (nothing stored): no points, no mini-games. */
  const InitialScore: ScoreData := ScoreData(0, 0)

  /** `addScore(points, miniGameCompleted = false)` */
  function AddScore(s: ScoreData, points: int, miniGameCompleted: bool := false): (r: ScoreData)
    ensures r.totalScore == s.totalScore + points
    ensures miniGameCompleted ==> r.miniGamesCompleted == s.miniGamesCompleted + 1
    ensures !miniGameCompleted ==> r.miniGamesCompleted == s.miniGamesCompleted
  {
    ScoreData(s.totalScore + points,
              if miniGameCompleted then s.miniGamesCompleted + 1 else s.miniGamesCompleted)
  }

  /** `resetScore`: whatever the score was, it is back to zero. */
  function ResetScore(s: ScoreData): (r: ScoreData)
    ensures r.totalScore == 0 && r.miniGamesCompleted == 0
  {
    InitialScore
  }

  /** `setScore(score)`: overwrites the total, keeps the mini-game counter. */
  function SetScore(s: ScoreData, score: int): (r: ScoreData)
    ensures r.totalScore == score
    ensures r.miniGamesCompleted == s.miniGamesCompleted
  {
    s.(totalScore := score)
  }

  /** One `addScore` call. */
  datatype Award = Award(points: int, miniGame: bool)

  function AddAll(s: ScoreData, awards: seq<Award>): ScoreData
    decreases |awards|
  {
    if |awards| == 0 then s else AddAll(AddScore(s, awards[0].points, awards[0].miniGame), awards[1..])
  }

  function SumPoints(awards: seq<Award>): int
    decreases |awards|
  {
    if |awards| == 0 then 0 else awards[0].points + SumPoints(awards[1..])
  }

  function CountMiniGames(awards: seq<Award>): (n: nat)
    ensures n <= |awards|
    decreases |awards|
  {
    if |awards| == 0 then 0 else (if awards[0].miniGame then 1 else 0) + CountMiniGames(awards[1..])
  }

  /** A series of awards adds exactly the sum of their points and counts exactly
      the awards that flagged a completed mini-game. */
  lemma {:induction false} AddAllSums(s: ScoreData, awards: seq<Award>)
    ensures AddAll(s, awards).totalScore == s.totalScore + SumPoints(awards)
    ensures AddAll(s, awards).miniGamesCompleted == s.miniGamesCompleted + CountMiniGames(awards)
    decreases |awards|
  {
    if |awards| > 0 {
      AddAllSums(AddScore(s, awards[0].points, awards[0].miniGame), awards[1..]);
    }
  }

  /** The order of awards does not matter: two awards commute. */
  lemma AddScoreCommutes(s: ScoreData, a: Award, b: Award)
    ensures AddScore(AddScore(s, a.points, a.miniGame), b.points, b.miniGame)
         == AddScore(AddScore(s, b.points, b.miniGame), a.points, a.miniGame)
  {
  }

  /** `setScore` after a series of awards keeps only their mini-game count. */
  lemma SetScoreAfterAwards(s: ScoreData, awards: seq<Award>, score: int)
    ensures SetScore(AddAll(s, awards), score) == ScoreData(score, s.miniGamesCompleted + CountMiniGames(awards))
  {
    AddAllSums(s, awards);
  }
}
