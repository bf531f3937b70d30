/**
 * The result record that a username check produces and that the checkpoint
 * file stores, with the verdict vocabulary of the checker.
 */
module Records {
  import opened Wrappers

  /** Timestamps are readings of the wall clock in microseconds, the resolution of
      Python's `datetime`; their ISO-8601 rendering is not modelled. */
  type Time = int

  /** The five `status` strings a result can carry. */
  datatype Status = Unavailable | Available | Taken | Unknown | Error {
    /** The literal that the checker writes into the `status` field. */
    function Name(): string {
      match this
      case Unavailable => "unavailable"
      case Available => "available"
      case Taken => "taken"
      case Unknown => "unknown"
      case Error => "error"
    }
  }

  /**
   * One entry of the `results` list. Results built by the checker always carry a
   * username; entries loaded from a checkpoint file may lack one, hence the Option.
   * `error` is present only on results with status "error".
   */
  datatype CheckResult = CheckResult(
    username: Option<string>,
    available: bool,
    status: Status,
    error: Option<string>,
    checkedAt: Time)

  /** Python truthiness of an optional string: present and non-empty. */
  predicate Truthy(s: Option<string>) {
    s.Some? && s.value != ""
  }

  /** Distinct statuses have distinct names, so the `status` field identifies the verdict. */
  lemma StatusNamesDistinct(a: Status, b: Status)
    ensures a.Name() == b.Name() <==> a == b
  {
  }
}
