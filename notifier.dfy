/**
 * The e-mail notifier as the workflow sees it: two calls, one per kind of notice,
 * each answering whether the message went out. Composing, templating and the SMTP
 * exchange are outside the model; the notifier keeps the log of requested notices
 * and whether its mail transport accepts messages.
 */
module Notifications {
  import opened Wrappers

  /** Which of the two notifications was requested. */
  datatype Kind = MissingData | Completion

  /**
   * A requested notice: about one sheet's validation, or the aggregate over a workbook
   * (whose summary, message included, the workflow's result records).
   */
  datatype Notice =
    | SheetNotice(kind: Kind, filePath: string, sheet: Option<string>)
    | WorkbookNotice(kind: Kind, filePath: string)

  class Notifier {
    /** Every notice requested so far, oldest first. */
    var log: seq<Notice>
    /** Whether the mail transport accepts messages: every send succeeds, or every send fails. */
    const accepts: bool

    constructor(accepts: bool)
      ensures this.accepts == accepts && log == []
    {
      this.accepts := accepts;
      log := [];
    }

    /** `send_missing_data_notification`. */
    method SendMissingData(n: Notice) returns (sent: bool)
      requires n.kind == MissingData
      modifies this
      ensures log == old(log) + [n]
      ensures sent == accepts
    {
      log := log + [n];
      sent := accepts;
    }

    /** `send_completion_notification`. */
    method SendCompletion(n: Notice) returns (sent: bool)
      requires n.kind == Completion
      modifies this
      ensures log == old(log) + [n]
      ensures sent == accepts
    {
      log := log + [n];
      sent := accepts;
    }
  }
}
