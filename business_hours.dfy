/**
  The open/closed indicator: the shop's weekly opening hours, the decision
  `checkBusinessStatus` takes from the local day of the week and hour, and
  the label and colour it writes into the status element.
 */
module BusinessHours {

  /** Opening hours of one day: open from hour `opens` up to, but not
      including, hour `closes`. */
  datatype Hours = Hours(opens: int, closes: int)

  /** The weekly schedule, indexed by day of the week (0 is Sunday):
      Sunday 10 am to 1 pm, Monday to Saturday 9 am to 8 pm. */
  const Week: seq<Hours> := [
    Hours(10, 13), Hours(9, 20), Hours(9, 20), Hours(9, 20),
    Hours(9, 20), Hours(9, 20), Hours(9, 20)
  ]

  /** What the status element shows. */
  datatype Display = Display(text: string, color: string)

  const OpenGreen := "#188038"
  const ClosedRed := "#d93025"

  /** The decision of `checkBusinessStatus`, branch for branch: Sunday
      against 10..13, every other day against 9..20. It agrees with the
      weekly schedule: the opening hour is open, the closing hour closed. */
  function IsOpen(day: int, hour: int): (open: bool)
    requires 0 <= day < 7 && 0 <= hour < 24
    ensures open <==> Week[day].opens <= hour < Week[day].closes
  {
    if day == 0 then hour >= 10 && hour < 13
    else hour >= 9 && hour < 20
  }

  /** The label and colour written for a day and hour: "Open" in green
      exactly when the shop is open, otherwise "Closed" in red. */
  function Evaluate(day: int, hour: int): (d: Display)
    requires 0 <= day < 7 && 0 <= hour < 24
    ensures d.text == "Open" <==> Week[day].opens <= hour < Week[day].closes
    ensures d.text == "Open" || d.text == "Closed"
    ensures d.color == (if d.text == "Open" then OpenGreen else ClosedRed)
  {
    if IsOpen(day, hour) then Display("Open", OpenGreen) else Display("Closed", ClosedRed)
  }

  /** Every day's boundaries: the hour before opening is closed, the opening
      hour is open, the last hour before closing is open and the closing hour
      is closed. */
  lemma {:induction false} Boundaries(day: int)
    requires 0 <= day < 7
    ensures 0 < Week[day].opens < Week[day].closes < 24
    ensures !IsOpen(day, Week[day].opens - 1)
    ensures IsOpen(day, Week[day].opens)
    ensures IsOpen(day, Week[day].closes - 1)
    ensures !IsOpen(day, Week[day].closes)
  {
  }

  /** The status element `#currentStatusText`. */
  class StatusText {
    var text: string
    var color: string

    constructor (text: string, color: string)
      ensures this.text == text && this.color == color
    {
      this.text := text;
      this.color := color;
    }
  }

  /** `checkBusinessStatus` at a given local day and hour: nothing happens
      when the page has no status element; otherwise the element shows the
      evaluation. */
  method CheckBusinessStatus(statusEl: StatusText?, day: int, hour: int)
    requires 0 <= day < 7 && 0 <= hour < 24
    modifies statusEl
    ensures statusEl != null ==>
      Display(statusEl.text, statusEl.color) == Evaluate(day, hour)
  {
    if statusEl == null {
      return;
    }
    if IsOpen(day, hour) {
      statusEl.text := "Open";
      statusEl.color := OpenGreen;
    } else {
      statusEl.text := "Closed";
      statusEl.color := ClosedRed;
    }
  }
}
