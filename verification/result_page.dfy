/** The result page's verdict on a score: a message and a colour, each
    picked by the same three thresholds. */
module ResultPage {

  /** The score thresholds, from the top band down. */
  const Excellent := 90
  const Good := 70
  const Fair := 50

  /** getPerformanceMessage: the message of the score's band. */
  function PerformanceMessage(percentage: int): (message: string)
    ensures message == Messages[Band(percentage)]
  {
    if percentage >= Excellent then "素晴らしい成績です！"
    else if percentage >= Good then "よくできました！"
    else if percentage >= Fair then "もう少し頑張りましょう！"
    else "次回はもっと頑張りましょう！"
  }

  /** getPerformanceColor: green, blue, amber, red, by the score's band. */
  function PerformanceColor(percentage: int): (color: string)
    ensures color == Colors[Band(percentage)]
  {
    if percentage >= Excellent then "#10b981"
    else if percentage >= Good then "#3b82f6"
    else if percentage >= Fair then "#f59e0b"
    else "#ef4444"
  }

  /** The band of a score: how many thresholds it reaches, 0 (lowest) to 3. */
  function Band(percentage: int): (b: nat)
    ensures b <= 3
  {
    (if percentage >= Fair then 1 else 0)
      + (if percentage >= Good then 1 else 0)
      + (if percentage >= Excellent then 1 else 0)
  }

  /** The messages and colours, indexed by band. */
  const Messages := ["次回はもっと頑張りましょう！", "もう少し頑張りましょう！", "よくできました！", "素晴らしい成績です！"]
  const Colors := ["#ef4444", "#f59e0b", "#3b82f6", "#10b981"]

  /** The four messages differ, and so do the four colours. */
  lemma VerdictsDistinct()
    ensures forall i, j :: 0 <= i < j < 4 ==> Messages[i] != Messages[j]
    ensures forall i, j :: 0 <= i < j < 4 ==> Colors[i] != Colors[j]
  {
    assert Messages[0][0] != Messages[1][0] && Messages[0][0] != Messages[2][0];
    assert Messages[0][0] != Messages[3][0] && Messages[1][0] != Messages[2][0];
    assert Messages[1][0] != Messages[3][0] && Messages[2][0] != Messages[3][0];
    assert Colors[0][1] != Colors[1][1] && Colors[0][1] != Colors[2][1];
    assert Colors[0][1] != Colors[3][1] && Colors[1][1] != Colors[2][1];
    assert Colors[1][1] != Colors[3][1] && Colors[2][1] != Colors[3][1];
  }

  /** Two scores get the same message exactly when they get the same colour:
      message and colour never disagree about the band. */
  lemma MessageAndColorAgree(p: int, q: int)
    ensures PerformanceMessage(p) == PerformanceMessage(q) <==> Band(p) == Band(q)
    ensures PerformanceColor(p) == PerformanceColor(q) <==> Band(p) == Band(q)
  {
    VerdictsDistinct();
  }

  /** A higher score never lands in a lower band. */
  lemma BandMonotone(p: int, q: int)
    requires p <= q
    ensures Band(p) <= Band(q)
  {
  }
}
