/** Stage 5: the row-local composite columns. */
module Composite {

  /** `day_type`: 0 for a holiday, 1 for a weekend day that is not a
      holiday, 2 for any other day. The weekend flag is tested for being
      non-zero, as the column is an integer 0/1 flag. */
  function DayType(isHoliday: bool, isWeekend: int): (t: int)
    ensures 0 <= t <= 2
    ensures t == 0 <==> isHoliday
    ensures t == 1 <==> !isHoliday && isWeekend != 0
    ensures t == 2 <==> !isHoliday && isWeekend == 0
  {
    if isHoliday then 0
    else if isWeekend != 0 then 1
    else 2
  }

  /** `hour_x_weekend`: the product of the hour and the 0/1 weekend flag. */
  function HourXWeekend(hour: int, isWeekend: int): (r: int)
    ensures isWeekend == 0 ==> r == 0
    ensures isWeekend == 1 ==> r == hour
    ensures 0 <= hour && 0 <= isWeekend <= 1 ==> 0 <= r <= hour
  {
    hour * isWeekend
  }

  /** `temperature_squared`: never negative, and a temperature and its
      opposite square alike. */
  function TemperatureSquared(t: real): (r: real)
    ensures r >= 0.0
    ensures r == (-t) * (-t)
  {
    t * t
  }
}
