/** How one file operation can go: it may work, raise, or be the process's last, before its effect or after it. */
module Faults {
  datatype Fate = Works | Raises | RaisesDone | Stops | StopsDone

  datatype End = Fine | Error | Stopped

  predicate Lands(f: Fate) {
    f == Works || f == RaisesDone || f == StopsDone
  }

  function EndOf(f: Fate): End {
    match f
    case Works => Fine
    case Raises => Error
    case RaisesDone => Error
    case Stops => Stopped
    case StopsDone => Stopped
  }
}
