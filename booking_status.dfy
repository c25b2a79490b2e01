/** The status of an appointment: the five `BOOKING_STATUS` choices and the
    text stored for each in the `status` column. */
module BookingStatus {
  import opened Wrappers

  datatype Status = Cancelled | Pending | Accepted | Active | Completed

  /** The status every new appointment starts in. */
  const DefaultStatus: Status := Pending

  /** The stored value of each choice. */
  function Label(s: Status): (v: string)
    ensures v in {"Cancelled", "Pending", "Accepted", "Active", "Completed"}
  {
    match s
    case Cancelled => "Cancelled"
    case Pending => "Pending"
    case Accepted => "Accepted"
    case Active => "Active"
    case Completed => "Completed"
  }

  /** Reads a stored value back; anything but the five labels is not a choice. */
  function Parse(v: string): (r: Option<Status>)
    ensures r.Some? <==> v in {"Cancelled", "Pending", "Accepted", "Active", "Completed"}
    ensures r.Some? ==> Label(r.value) == v
  {
    if v == "Cancelled" then Some(Cancelled)
    else if v == "Pending" then Some(Pending)
    else if v == "Accepted" then Some(Accepted)
    else if v == "Active" then Some(Active)
    else if v == "Completed" then Some(Completed)
    else None
  }

  /** Every status survives being stored and read back, so two statuses never
      share a stored value. */
  lemma ParseLabel(s: Status)
    ensures Parse(Label(s)) == Some(s)
  {
  }

  lemma LabelInjective(s1: Status, s2: Status)
    requires Label(s1) == Label(s2)
    ensures s1 == s2
  {
    ParseLabel(s1);
    ParseLabel(s2);
  }
}
