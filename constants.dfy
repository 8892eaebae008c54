/** The fixed configuration of the check-in system. */
module Constants {

  /** Points for the first check-in of the day by anybody. */
  const FirstCheckinOfDay := 10
  /** Points for any later check-in that day. */
  const RegularCheckin := 5
  /** Extra points for checking in on the day after one's last check-in. */
  const StreakBonus := 2

  /** `date.weekday()` values of Monday to Friday. */
  const Workdays: seq<int> := [0, 1, 2, 3, 4]
  /** `date.weekday()` values of Saturday and Sunday. */
  const Weekend: seq<int> := [5, 6]

  /** São Paulo civil time: a fixed offset of three hours west of UTC, without daylight saving. */
  const SaoPauloOffsetMinutes := -180

  const CheckinSuccessMessage := "Check-in realizado com sucesso!"

  /** Workdays and weekend days are disjoint and together are the seven weekdays. */
  lemma WeekdaysPartition(w: int)
    ensures w in Workdays || w in Weekend <==> 0 <= w <= 6
    ensures !(w in Workdays && w in Weekend)
  {
  }
}
