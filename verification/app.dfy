/**
  app.py: the plain-text ticket, the choice of ESC/POS driver for the
  configured printer type, and the decisions of the `/submit_ticket` and
  `/health` routes.  The clock, the driver constructors, the network
  and Flask itself are parameters: the wall-clock strings, whether a
  driver object could be constructed, whether the rich formatting
  succeeded, and the devices a BLE scan would report.
*/
module App {
  import opened Wrappers
  import opened Bytes
  import opened PyStr
  import opened Escpos
  import opened Gatt
  import opened BlePrinter
  import opened TicketLayout

  /** The lines of `build_ticket_text`; `timeStr` and `dateStr` are `now` formatted as "%I:%M %p" and "%B %d, %Y". */
  function TicketLines(fromName: string, question: string, timeStr: string, dateStr: string): (r: seq<string>)
    ensures |r| == 11 && r[0] == Banner && r[10] == Banner
    ensures r[3] == "From: " + fromName && r[8] == Strip(question)
  {
    [ Banner,
      "TICKET",
      Rule,
      "From: " + fromName,
      "Time: " + timeStr,
      "Date: " + dateStr,
      Rule,
      "Question/Comment",
      Strip(question),
      Rule,
      Banner ]
  }

  /** `build_ticket_text(from_name, question)`: the lines joined by newlines, with one more after the last. */
  function BuildTicketText(fromName: string, question: string, timeStr: string, dateStr: string): (r: string)
    ensures r == Terminated(TicketLines(fromName, question, timeStr, dateStr))
  {
    JoinTerminated(TicketLines(fromName, question, timeStr, dateStr));
    Join("\n", TicketLines(fromName, question, timeStr, dateStr)) + "\n"
  }

  /** The ticket opens with the banner, the title and a rule, each on its own line. */
  lemma TicketStart(fromName: string, question: string, timeStr: string, dateStr: string)
    ensures var t := BuildTicketText(fromName, question, timeStr, dateStr);
            |t| > 73 && t[..73] == Banner + "\n" + "TICKET" + "\n" + Rule + "\n"
  {
    var lines := TicketLines(fromName, question, timeStr, dateStr);
    TerminatedFirstThree(lines);
    StartsWith(Banner + "\n" + "TICKET" + "\n" + Rule + "\n", Terminated(lines[3..]));
    assert |Terminated(lines[3..])| > 0 by {
      TerminatedLastNewline(lines[3..]);
    }
  }

  /** The ticket ends with the banner and exactly one newline: the character before that newline is '='. */
  lemma TicketEnd(fromName: string, question: string, timeStr: string, dateStr: string)
    ensures var t := BuildTicketText(fromName, question, timeStr, dateStr);
            |t| >= 33 && t[|t| - 33..] == Banner + "\n" && t[|t| - 2] == '='
  {
    var lines := TicketLines(fromName, question, timeStr, dateStr);
    TerminatedEnd(lines);
    EndsWith(Terminated(lines[..10]), Banner, "\n");
    assert (Banner + "\n")[31] == '=';
  }

  /** The sender and the stripped question each stand on a line of their own. */
  lemma TicketHasSenderAndQuestion(fromName: string, question: string, timeStr: string, dateStr: string)
    ensures var t := BuildTicketText(fromName, question, timeStr, dateStr);
            HasLine(t, "From: " + fromName) && HasLine(t, Strip(question))
  {
    var lines := TicketLines(fromName, question, timeStr, dateStr);
    TerminatedHasLine(lines, 3);
    TerminatedHasLine(lines, 8);
  }

  /** Eleven line breaks, plus any the sender's name or the question carry themselves. */
  lemma TicketNewlines(fromName: string, question: string, timeStr: string, dateStr: string)
    ensures Count(BuildTicketText(fromName, question, timeStr, dateStr), '\n')
         == 11 + NewlinesWithin(TicketLines(fromName, question, timeStr, dateStr))
  {
    CountTerminated(TicketLines(fromName, question, timeStr, dateStr));
  }

  // ---------------------------------------------------------------------
  // Printer selection
  // ---------------------------------------------------------------------

  /** The python-escpos driver objects `get_printer` constructs. */
  datatype PrinterSpec =
    | Usb(vendor: int, product: int)
    | Serial(devfile: string, baudrate: int)
    | Network(host: string)

  /** PRINTER_TYPE, USB_VENDOR, USB_PRODUCT, SERIAL_PORT, NETWORK_HOST and BLE_PRINTER_ADDR. */
  datatype AppConfig = AppConfig(
    printerType: string,
    usbVendor: Option<int>,
    usbProduct: Option<int>,
    serialPort: string,
    networkHost: string,
    bleAddress: string)

  /** BLE_PRINTER_ADDR as app.py reads it: stripped, "" when unset. */
  function BleAddressSetting(env: Option<string>): (r: string)
    ensures r == [] <==> env.None? || AllSpace(env.value)
    ensures exists i: nat :: SurroundedBySpace(env.GetOr(""), r, i)
    ensures r == [] || (!IsSpace(r[0]) && !IsSpace(r[|r| - 1]))
  {
    StripSpec(env.GetOr(""));
    Strip(env.GetOr(""))
  }

  /** A USB id is truthy when it is set and not zero. */
  predicate Truthy(id: Option<int>) { id.Some? && id.value != 0 }

  /** The driver `get_printer` tries to construct; None for "ble" and for an unknown type. */
  function PrinterFor(cfg: AppConfig): (r: Option<PrinterSpec>)
    ensures r.Some? <==> cfg.printerType in {"usb", "serial", "bluetooth", "network"}
    ensures r.Some? && r.value.Usb? <==> cfg.printerType == "usb"
    ensures cfg.printerType == "usb" ==>
      r == Some(if Truthy(cfg.usbVendor) && Truthy(cfg.usbProduct) then Usb(cfg.usbVendor.value, cfg.usbProduct.value) else Usb(0x0416, 0x5011))
    ensures cfg.printerType == "serial" ==> r == Some(Serial(cfg.serialPort, 9600))
    ensures cfg.printerType == "bluetooth" ==> r == Some(Serial("/dev/rfcomm0", 9600))
    ensures cfg.printerType == "network" ==> r == Some(Network(cfg.networkHost))
    ensures r.Some? && r.value.Serial? ==> r.value.baudrate == 9600
  {
    if cfg.printerType == "usb" then
      if Truthy(cfg.usbVendor) && Truthy(cfg.usbProduct) then Some(Usb(cfg.usbVendor.value, cfg.usbProduct.value))
      else Some(Usb(0x0416, 0x5011))
    else if cfg.printerType == "serial" then Some(Serial(cfg.serialPort, 9600))
    else if cfg.printerType == "bluetooth" then Some(Serial("/dev/rfcomm0", 9600))
    else if cfg.printerType == "network" then Some(Network(cfg.networkHost))
    else None
  }

  /**
    `get_printer()`: the driver object, or None when the type is "ble" or
    unknown, or when constructing the driver raises (`driverOpens` false).
  */
  function GetPrinter(cfg: AppConfig, driverOpens: bool): (r: Option<PrinterSpec>)
    ensures r.Some? <==> PrinterFor(cfg).Some? && driverOpens
    ensures r.Some? ==> r == PrinterFor(cfg)
    ensures cfg.printerType == "ble" ==> r.None?
  {
    if driverOpens then PrinterFor(cfg) else None
  }

  // ---------------------------------------------------------------------
  // POST /submit_ticket
  // ---------------------------------------------------------------------

  /** A JSON value of the request: a string, or anything else with the text Python's `str()` gives it. */
  datatype JsonValue = JString(s: string) | JOther(shown: string)

  /** `request.json`: an object, or any other document (`truthy` as Python judges it; no document at all is falsy). */
  datatype Body = Object(fields: map<string, JsonValue>) | NotObject(truthy: bool)

  /** Why the route answered as it did. */
  datatype Reason =
    | Printed
    | EmptyQuestion       // "Question/Comment cannot be empty"
    | BleAddressNotSet    // "BLE_PRINTER_ADDR is not set"
    | PrinterNotAvailable // "Printer not available"
    | PrintFailed         // "Failed to print ticket"
    | Raised              // an exception, reported with its message

  /** The print the route started, if any. */
  datatype Attempt =
    | NoAttempt
    | BleAttempt(addr: string, text: string)
    | DriverAttempt(printer: PrinterSpec, fromName: string, question: string)

  datatype Reply = Reply(status: int, success: bool, reason: Reason, attempt: Attempt)

  /** The text f-string formatting shows for a value. */
  function Shown(v: JsonValue): string
  {
    match v
    case JString(s) => s
    case JOther(shown) => shown
  }

  /** `data.get("from_name", "Anonymous")`, as the ticket shows it. */
  function SenderName(data: map<string, JsonValue>): (r: string)
    ensures "from_name" !in data ==> r == "Anonymous"
    ensures "from_name" in data && data["from_name"].JString? ==> r == data["from_name"].s
    ensures "from_name" in data && data["from_name"].JOther? ==> r == data["from_name"].shown
  {
    if "from_name" in data then Shown(data["from_name"]) else "Anonymous"
  }

  /** `request.json or {}`: the fields of an object body, none for a falsy one. */
  function RequestData(body: Body): map<string, JsonValue>
  {
    if body.Object? then body.fields else map[]
  }

  /** `data.get("question", "")`. */
  function QuestionField(data: map<string, JsonValue>): JsonValue
  {
    if "question" in data then data["question"] else JString("")
  }

  /** The request makes the route raise before any check: `data.get` on a truthy non-object, or `.strip()` on a non-string question. */
  predicate Malformed(body: Body)
  {
    (body.NotObject? && body.truthy) || QuestionField(RequestData(body)).JOther?
  }

  /** A well-formed request whose question is empty or all whitespace. */
  predicate BlankQuestion(body: Body)
  {
    !Malformed(body) && AllSpace(QuestionField(RequestData(body)).s)
  }

  /** A well-formed request with a question worth printing. */
  predicate ValidRequest(body: Body)
  {
    !Malformed(body) && !AllSpace(QuestionField(RequestData(body)).s)
  }

  /**
    `submit_ticket()`.  `advertised`, `linkBudget` and `bleCfg` are what
    `ble_print_text` meets; `driverOpens` whether `get_printer` could construct its driver;
    `formatOk` what `format_ticket_escpos` returned.
  */
  function SubmitTicket(cfg: AppConfig, body: Body, timeStr: string, dateStr: string,
                        advertised: seq<Device>, linkBudget: Option<nat>, bleCfg: BleConfig, driverOpens: bool, formatOk: bool): (r: Reply)
    ensures r.success <==> r.status == 200
    ensures r.status in {200, 400, 500}
    ensures r.status == 400 <==> r.reason == EmptyQuestion
    ensures r.status == 400 <==> BlankQuestion(body)
    ensures Malformed(body) ==> r == Reply(500, false, Raised, NoAttempt)
    ensures ValidRequest(body) && cfg.printerType == "ble" && cfg.bleAddress == [] ==> r == Reply(500, false, BleAddressNotSet, NoAttempt)
    ensures ValidRequest(body) && cfg.printerType != "ble" ==>
      (r.success <==> GetPrinter(cfg, driverOpens).Some? && formatOk) &&
      (GetPrinter(cfg, driverOpens).None? ==> r == Reply(500, false, PrinterNotAvailable, NoAttempt))
    ensures r.attempt.BleAttempt? ==> cfg.printerType == "ble" && r.attempt.addr == cfg.bleAddress != []
    ensures r.attempt.DriverAttempt? ==> cfg.printerType != "ble" && Some(r.attempt.printer) == GetPrinter(cfg, driverOpens)
    ensures r.reason == EmptyQuestion || r.reason == BleAddressNotSet ==> r.attempt == NoAttempt
  {
    var data := RequestData(body);
    var question := QuestionField(data);
    if body.NotObject? && body.truthy then
      // `data.get` on a list, a number or a string raises AttributeError
      Reply(500, false, Raised, NoAttempt)
    else if question.JOther? then
      // `.strip()` on a non-string raises AttributeError
      Reply(500, false, Raised, NoAttempt)
    else
      StripSpec(question.s);
      if Strip(question.s) == [] then
        Reply(400, false, EmptyQuestion, NoAttempt)
      else if cfg.printerType == "ble" then
        if cfg.bleAddress == [] then Reply(500, false, BleAddressNotSet, NoAttempt)
        else
          var text := BuildTicketText(SenderName(data), question.s, timeStr, dateStr);
          var attempt := BleAttempt(cfg.bleAddress, text);
          if SessionOutcome(advertised, cfg.bleAddress, EscposFrame(text), bleCfg.chunkSize, linkBudget).Pass? then Reply(200, true, Printed, attempt)
          else Reply(500, false, Raised, attempt)
      else
        match GetPrinter(cfg, driverOpens)
        case None => Reply(500, false, PrinterNotAvailable, NoAttempt)
        case Some(printer) =>
          var attempt := DriverAttempt(printer, SenderName(data), question.s);
          if formatOk then Reply(200, true, Printed, attempt) else Reply(500, false, PrintFailed, attempt)
  }

  /** A question that is missing, empty or all whitespace gets a 400 and nothing is printed. */
  lemma BlankQuestionRejected(cfg: AppConfig, fields: map<string, JsonValue>, timeStr: string, dateStr: string,
                              advertised: seq<Device>, linkBudget: Option<nat>, bleCfg: BleConfig, driverOpens: bool, formatOk: bool)
    requires "question" !in fields || (fields["question"].JString? && AllSpace(fields["question"].s))
    ensures SubmitTicket(cfg, Object(fields), timeStr, dateStr, advertised, linkBudget, bleCfg, driverOpens, formatOk)
         == Reply(400, false, EmptyQuestion, NoAttempt)
  {
    if "question" in fields {
      StripSpec(fields["question"].s);
    } else {
      StripSpec("");
    }
  }

  /**
    In BLE mode a valid submission prints the ticket text with the sender
    (or "Anonymous") and the stripped question through `ble_print_text`,
    and succeeds exactly when that write session does.  A success with a
    positive chunk size delivers the whole frame of that text; a failure
    delivers strictly less of it, and never a second copy.
  */
  lemma BleSubmission(cfg: AppConfig, fields: map<string, JsonValue>, timeStr: string, dateStr: string,
                      advertised: seq<Device>, linkBudget: Option<nat>, bleCfg: BleConfig, driverOpens: bool, formatOk: bool)
    requires cfg.printerType == "ble" && cfg.bleAddress != []
    requires "question" in fields && fields["question"].JString? && !AllSpace(fields["question"].s)
    ensures var r := SubmitTicket(cfg, Object(fields), timeStr, dateStr, advertised, linkBudget, bleCfg, driverOpens, formatOk);
            var text := BuildTicketText(SenderName(fields), fields["question"].s, timeStr, dateStr);
            r.attempt == BleAttempt(cfg.bleAddress, text) &&
            var w := SessionWrites(advertised, bleCfg.writeUuid, cfg.bleAddress, EscposFrame(text), bleCfg.chunkSize, linkBudget);
            (r.success <==> SessionOutcome(advertised, cfg.bleAddress, EscposFrame(text), bleCfg.chunkSize, linkBudget).Pass?) &&
            (r.success && bleCfg.chunkSize > 0 ==> Flatten(DataOf(w)) == EscposFrame(text)) &&
            (!r.success ==> Flatten(DataOf(w)) < EscposFrame(text)) &&
            HasLine(text, "From: " + SenderName(fields)) && HasLine(text, Strip(fields["question"].s))
  {
    var question := fields["question"].s;
    var text := BuildTicketText(SenderName(fields), question, timeStr, dateStr);
    var frame := EscposFrame(text);
    BleReply(cfg, fields, timeStr, dateStr, advertised, linkBudget, bleCfg, driverOpens, formatOk);
    var w := SessionWrites(advertised, bleCfg.writeUuid, cfg.bleAddress, frame, bleCfg.chunkSize, linkBudget);
    assert Flatten(DataOf(w)) <= frame;
    TicketHasSenderAndQuestion(SenderName(fields), question, timeStr, dateStr);
  }

  /** The reply to a valid submission in BLE mode follows the write session's outcome. */
  lemma BleReply(cfg: AppConfig, fields: map<string, JsonValue>, timeStr: string, dateStr: string,
                 advertised: seq<Device>, linkBudget: Option<nat>, bleCfg: BleConfig, driverOpens: bool, formatOk: bool)
    requires cfg.printerType == "ble" && cfg.bleAddress != []
    requires "question" in fields && fields["question"].JString? && !AllSpace(fields["question"].s)
    ensures var text := BuildTicketText(SenderName(fields), fields["question"].s, timeStr, dateStr);
            var attempt := BleAttempt(cfg.bleAddress, text);
            SubmitTicket(cfg, Object(fields), timeStr, dateStr, advertised, linkBudget, bleCfg, driverOpens, formatOk)
            == if SessionOutcome(advertised, cfg.bleAddress, EscposFrame(text), bleCfg.chunkSize, linkBudget).Pass?
               then Reply(200, true, Printed, attempt) else Reply(500, false, Raised, attempt)
  {
    StripSpec(fields["question"].s);
  }

  // ---------------------------------------------------------------------
  // GET /health
  // ---------------------------------------------------------------------

  /** The `/health` reply: a healthy report, or the unhealthy one sent when the route raised. */
  datatype HealthReport =
    | Healthy(printerConnected: bool, printerType: string, scanned: bool)
    | Unhealthy
  {
    /** The HTTP status: Flask's default 200 for a healthy report, 500 from the `except` branch. */
    function Status(): int
    {
      if Healthy? then 200 else 500
    }
  }

  /**
    `health()`: in BLE mode the printer counts as connected when an address
    is set and a scan finds it; an empty address answers false without
    scanning.  Otherwise it is connected when `get_printer` gives a driver.
    `scanRaises` says whether the Bluetooth scan behind `ble_is_available`
    raised; `get_printer` catches its own errors, so only the scan can make
    the route answer "unhealthy".
  */
  function Health(cfg: AppConfig, advertised: seq<Device>, driverOpens: bool, scanRaises: bool): (r: HealthReport)
    ensures r.Unhealthy? <==> cfg.printerType == "ble" && cfg.bleAddress != [] && scanRaises
    ensures r.Status() == 500 <==> r.Unhealthy?
    ensures r.Healthy? && cfg.printerType == "ble" ==> r.printerType == "ble" && (r.scanned <==> cfg.bleAddress != [])
    ensures r.Healthy? && cfg.printerType == "ble" ==>
      (r.printerConnected <==> cfg.bleAddress != [] && exists i :: 0 <= i < |advertised| && AddressMatches(advertised[i], cfg.bleAddress))
    ensures r.Healthy? && cfg.printerType != "ble" ==> !r.scanned && r.printerType == cfg.printerType
    ensures cfg.printerType != "ble" ==> r.Healthy? && (r.printerConnected <==> PrinterFor(cfg).Some? && driverOpens)
  {
    if cfg.printerType == "ble" then
      if cfg.bleAddress == [] then Healthy(false, "ble", false)
      else if scanRaises then Unhealthy
      else Healthy(BleIsAvailable(advertised, cfg.bleAddress), "ble", true)
    else
      Healthy(GetPrinter(cfg, driverOpens).Some?, cfg.printerType, false)
  }

  /**
    `/health` and `/submit_ticket` agree in BLE mode when their scans agree:
    each route scans on its own (`ble_is_available`, then `_ble_write`), so
    the agreement holds when both scans report the same device for the
    address.  A printer a healthy report shows as not connected then
    cannot print.
  */
  lemma HealthAgreesWithSubmit(cfg: AppConfig, fields: map<string, JsonValue>, timeStr: string, dateStr: string,
                               healthScan: seq<Device>, submitScan: seq<Device>, linkBudget: Option<nat>, bleCfg: BleConfig,
                               driverOpens: bool, formatOk: bool, scanRaises: bool)
    requires cfg.printerType == "ble"
    requires FindDeviceByAddress(healthScan, cfg.bleAddress) == FindDeviceByAddress(submitScan, cfg.bleAddress)
    requires Health(cfg, healthScan, driverOpens, scanRaises).Healthy?
    requires !Health(cfg, healthScan, driverOpens, scanRaises).printerConnected
    ensures !SubmitTicket(cfg, Object(fields), timeStr, dateStr, submitScan, linkBudget, bleCfg, driverOpens, formatOk).success
  {
  }
}
