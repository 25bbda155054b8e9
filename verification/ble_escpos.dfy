/**
  ble_escpos.py: the self-contained BLE ticket path.  It builds a
  13-line ESC/POS ticket, connects to BLE_PRINTER_ADDR, takes the
  configured characteristic or the first writable one it finds, and
  writes the ticket in chunks of BLE_CHUNK_SIZE.
*/
module BleEscpos {
  import opened Wrappers
  import opened Bytes
  import opened PyStr
  import opened Utf8
  import opened Chunking
  import opened Escpos
  import opened Gatt
  import opened TicketLayout
  import App

  /** BLE_PRINTER_ADDR (as read, not stripped), BLE_WRITE_CHAR_UUID and BLE_CHUNK_SIZE. */
  datatype EscposConfig = EscposConfig(printerAddr: string, writeCharUuid: string, chunkSize: int)

  /** BLE_WRITE_CHAR_UUID: the environment value stripped and lower-cased, "" when unset. */
  function WriteCharUuidSetting(env: Option<string>): (r: string)
    ensures forall i :: 0 <= i < |r| ==> !('A' <= r[i] <= 'Z')
    ensures Upper(r) == Upper(Strip(env.GetOr("")))
    ensures r == [] <==> env.None? || AllSpace(env.value)
  {
    StripSpec(env.GetOr(""));
    UpperLower(Strip(env.GetOr("")));
    Lower(Strip(env.GetOr("")))
  }

  // ---------------------------------------------------------------------
  // The ticket
  // ---------------------------------------------------------------------

  /** The lines of `_build_escpos_ticket`: those of app.py's ticket and two empty ones. */
  function TicketLines(fromName: string, question: string, timeStr: string, dateStr: string): (r: seq<string>)
    ensures |r| == 13 && r[11] == "" && r[12] == ""
    ensures r[3] == "From: " + fromName && r[8] == Strip(question)
  {
    [ Banner,
      "TICKET",
      Rule,
      "From: " + fromName,
      "Time: " + timeStr,
      "Date: " + dateStr,
      Rule,
      "Question/Comment",
      Strip(question),
      Rule,
      Banner,
      "",
      "" ]
  }

  /** The text of the ticket: the lines joined by newlines, with one more after the last. */
  function TicketText(fromName: string, question: string, timeStr: string, dateStr: string): (r: string)
    ensures r == Terminated(TicketLines(fromName, question, timeStr, dateStr))
  {
    JoinTerminated(TicketLines(fromName, question, timeStr, dateStr));
    Join("\n", TicketLines(fromName, question, timeStr, dateStr)) + "\n"
  }

  /** `_build_escpos_ticket(from_name, question)`: ESC @, the encoded text, three feeds and GS V 0. */
  function BuildEscposTicket(fromName: string, question: string, timeStr: string, dateStr: string): (r: seq<byte>)
    ensures r == EscposFrame(TicketText(fromName, question, timeStr, dateStr))
  {
    var init := [0x1B] + [0x40];
    var feedAndCut := [0x0A, 0x0A, 0x0A] + ([0x1D] + [0x56] + [0x00]);
    FrameLayout(TicketText(fromName, question, timeStr, dateStr));
    init + Encode(TicketText(fromName, question, timeStr, dateStr)) + feedAndCut
  }

  /** The ticket bytes are the standard frame of the ticket text, so the printer receives the whole text. */
  lemma TicketIsFrame(fromName: string, question: string, timeStr: string, dateStr: string)
    ensures BuildEscposTicket(fromName, question, timeStr, dateStr) == EscposFrame(TicketText(fromName, question, timeStr, dateStr))
    ensures UnframeText(BuildEscposTicket(fromName, question, timeStr, dateStr)) == Some(TicketText(fromName, question, timeStr, dateStr))
  {
    var text := TicketText(fromName, question, timeStr, dateStr);
    FrameLayout(text);
    UnframeFrame(text);
  }

  /** Laid out as `_build_escpos_ticket` lays it out, any text gives its frame. */
  lemma FrameLayout(text: string)
    ensures [0x1B] + [0x40] + Encode(text) + ([0x0A, 0x0A, 0x0A] + ([0x1D] + [0x56] + [0x00])) == EscposFrame(text)
  {
  }

  /** The 13-line ticket is app.py's 11-line ticket followed by two blank lines. */
  lemma TicketExtendsAppTicket(fromName: string, question: string, timeStr: string, dateStr: string)
    ensures TicketText(fromName, question, timeStr, dateStr) == App.BuildTicketText(fromName, question, timeStr, dateStr) + "\n\n"
  {
    var lines := TicketLines(fromName, question, timeStr, dateStr);
    var appLines := App.TicketLines(fromName, question, timeStr, dateStr);
    assert lines == appLines + ["", ""];
    TerminatedAppend(appLines, ["", ""]);
    assert Terminated(["", ""]) == "\n\n" by {
      assert ["", ""][1..] == [""];
      assert [""][1..] == [];
    }
  }

  lemma {:induction false} TerminatedAppend(a: seq<string>, b: seq<string>)
    ensures Terminated(a + b) == Terminated(a) + Terminated(b)
  {
    if a == [] {
      assert a + b == b;
    } else {
      assert (a + b)[1..] == a[1..] + b;
      TerminatedAppend(a[1..], b);
    }
  }

  /** The text ends with the closing banner and three newlines: two blank lines after it. */
  lemma TicketEnd(fromName: string, question: string, timeStr: string, dateStr: string)
    ensures var t := TicketText(fromName, question, timeStr, dateStr);
            |t| >= 35 && t[|t| - 35..] == Banner + "\n\n\n"
  {
    TicketExtendsAppTicket(fromName, question, timeStr, dateStr);
    App.TicketEnd(fromName, question, timeStr, dateStr);
    var a := App.BuildTicketText(fromName, question, timeStr, dateStr);
    assert (a + "\n\n")[|a| + 2 - 35..] == a[|a| - 33..] + "\n\n";
  }

  /** The sender and the stripped question each stand on a line of their own. */
  lemma TicketHasSenderAndQuestion(fromName: string, question: string, timeStr: string, dateStr: string)
    ensures var t := TicketText(fromName, question, timeStr, dateStr);
            HasLine(t, "From: " + fromName) && HasLine(t, Strip(question))
  {
    var lines := TicketLines(fromName, question, timeStr, dateStr);
    TerminatedHasLine(lines, 3);
    TerminatedHasLine(lines, 8);
  }

  /** Thirteen line breaks, plus any the sender's name or the question carry themselves. */
  lemma TicketNewlines(fromName: string, question: string, timeStr: string, dateStr: string)
    ensures Count(TicketText(fromName, question, timeStr, dateStr), '\n')
         == 13 + NewlinesWithin(TicketLines(fromName, question, timeStr, dateStr))
  {
    CountTerminated(TicketLines(fromName, question, timeStr, dateStr));
  }

  // ---------------------------------------------------------------------
  // Choosing the characteristic
  // ---------------------------------------------------------------------

  /** A characteristic is writable when its properties name "write-without-response" or "write"; None counts as none. */
  predicate Writable(c: Characteristic)
  {
    var props := c.properties.GetOr([]);
    "write-without-response" in props || "write" in props
  }

  /** The characteristics of all services, service by service, in order. */
  function Characteristics(services: seq<Service>): (r: seq<Characteristic>)
  {
    if services == [] then [] else services[0].characteristics + Characteristics(services[1..])
  }

  lemma {:induction false} CharacteristicsSplit(services: seq<Service>, i: nat)
    requires i < |services|
    ensures Characteristics(services) == Characteristics(services[..i]) + services[i].characteristics + Characteristics(services[i + 1..])
  {
    if i == 0 {
      assert services[..0] == [];
    } else {
      CharacteristicsSplit(services[1..], i - 1);
      assert services[1..][..i - 1] == services[..i][1..];
      assert services[1..][i..] == services[i + 1..];
    }
  }

  lemma {:induction false} CharacteristicsPrefix(services: seq<Service>, i: nat)
    requires i < |services|
    ensures Characteristics(services[..i + 1]) == Characteristics(services[..i]) + services[i].characteristics
  {
    CharacteristicsSplit(services[..i + 1], i);
    assert services[..i + 1][..i] == services[..i];
    assert services[..i + 1][i + 1..] == [];
  }

  /** The first writable characteristic of a list, or None when there is none. */
  function FirstWritable(chars: seq<Characteristic>): (r: Option<Characteristic>)
    ensures r.None? <==> forall k :: 0 <= k < |chars| ==> !Writable(chars[k])
    ensures r.Some? ==> exists k :: 0 <= k < |chars| && chars[k] == r.value && Writable(r.value) &&
                                    forall k' :: 0 <= k' < k ==> !Writable(chars[k'])
  {
    if chars == [] then None
    else if Writable(chars[0]) then Some(chars[0])
    else
      var r := FirstWritable(chars[1..]);
      assert forall k :: 1 <= k < |chars| ==> chars[k] == chars[1..][k - 1];
      if r.Some? then
        var k :| 0 <= k < |chars[1..]| && chars[1..][k] == r.value && Writable(r.value) &&
                 forall k' :: 0 <= k' < k ==> !Writable(chars[1..][k']);
        assert forall k' :: 0 <= k' < k + 1 ==> !Writable(chars[k']) by {
          forall k' | 0 <= k' < k + 1 ensures !Writable(chars[k']) {
            if k' > 0 { assert chars[k'] == chars[1..][k' - 1]; }
          }
        }
        r
      else r
  }

  /** Whatever follows, the first writable characteristic is the one at k when none before k is writable. */
  lemma {:induction false} FirstWritableAt(chars: seq<Characteristic>, k: nat)
    requires k < |chars| && Writable(chars[k])
    requires forall k' :: 0 <= k' < k ==> !Writable(chars[k'])
    ensures FirstWritable(chars) == Some(chars[k])
  {
    if k > 0 {
      assert !Writable(chars[0]);
      assert forall k' :: 0 <= k' < k - 1 ==> chars[1..][k'] == chars[k' + 1];
      FirstWritableAt(chars[1..], k - 1);
    }
  }

  /**
    What `_auto_pick_write_char_uuid` gives: the UUID of the first writable
    characteristic, in service order, whether it allows "write" or
    "write-without-response"; an error when there are no services or no
    writable characteristic.
  */
  function AutoPick(services: Option<seq<Service>>): (r: Result<string, BleError>)
    ensures r == Failure(ServicesUnavailable) <==> services.None?
    ensures r == Failure(NoWritableCharacteristic) <==>
      services.Some? && forall c :: c in Characteristics(services.value) ==> !Writable(c)
    ensures r.Success? ==> exists c :: c in Characteristics(services.value) && Writable(c) && r.value == c.uuid
  {
    if services.None? then Failure(ServicesUnavailable)
    else
      match FirstWritable(Characteristics(services.value))
      case None => Failure(NoWritableCharacteristic)
      case Some(c) => Success(c.uuid)
  }

  /** `_auto_pick_write_char_uuid(client)`: the nested search over services and characteristics, returning at the first hit. */
  method AutoPickWriteCharUuid(services: Option<seq<Service>>) returns (r: Result<string, BleError>)
    ensures r == AutoPick(services)
  {
    if services.None? {
      return Failure(ServicesUnavailable);
    }
    var svcs := services.value;
    for i := 0 to |svcs|
      invariant forall c :: c in Characteristics(svcs[..i]) ==> !Writable(c)
    {
      var chars := svcs[i].characteristics;
      for j := 0 to |chars|
        invariant forall j' :: 0 <= j' < j ==> !Writable(chars[j'])
      {
        var props := chars[j].properties.GetOr([]);
        if "write-without-response" in props || "write" in props {
          ghost var pre := Characteristics(svcs[..i]);
          CharacteristicsSplit(svcs, i);
          ghost var all := Characteristics(svcs);
          assert all[|pre| + j] == chars[j];
          assert forall k' :: 0 <= k' < |pre| + j ==> !Writable(all[k']) by {
            forall k' | 0 <= k' < |pre| + j ensures !Writable(all[k']) {
              if k' < |pre| { assert all[k'] == pre[k'] && pre[k'] in pre; }
              else { assert all[k'] == chars[k' - |pre|]; }
            }
          }
          FirstWritableAt(all, |pre| + j);
          return Success(chars[j].uuid);
        }
      }
      CharacteristicsPrefix(svcs, i);
    }
    assert svcs[..|svcs|] == svcs;
    return Failure(NoWritableCharacteristic);
  }

  /** There is no preference for "write-without-response": a "write" characteristic listed first wins. */
  lemma NoPreferenceForWriteWithoutResponse(a: Characteristic, b: Characteristic, rest: seq<Service>)
    requires a.properties == Some(["write"]) && b.properties == Some(["write-without-response"])
    ensures AutoPick(Some([Service([a, b])] + rest)) == Success(a.uuid)
  {
    var services := [Service([a, b])] + rest;
    assert services[1..] == rest;
    assert Characteristics(services) == [a, b] + Characteristics(rest);
    FirstWritableAt(Characteristics(services), 0);
  }

  // ---------------------------------------------------------------------
  // Printing
  // ---------------------------------------------------------------------

  /** The characteristic written to: the configured one, or the auto-picked one lower-cased. */
  function CharUuid(cfg: EscposConfig, device: Device): (r: Result<string, BleError>)
    ensures cfg.writeCharUuid != [] ==> r == Success(cfg.writeCharUuid)
    ensures cfg.writeCharUuid == [] && r.Success? ==> AutoPick(device.services).Success? && r.value == Lower(AutoPick(device.services).value)
    ensures cfg.writeCharUuid == [] && r.Failure? ==> r == AutoPick(device.services)
  {
    if cfg.writeCharUuid != [] then Success(cfg.writeCharUuid)
    else
      match AutoPick(device.services)
      case Success(u) => Success(Lower(u))
      case Failure(e) => Failure(e)
  }

  /**
    How `_print_over_ble` ends: a missing address, a printer that cannot be
    reached, no characteristic to write, or a chunk size of zero each fail
    before the first write; a link that faults fails part-way.
  */
  function PrintOutcome(advertised: seq<Device>, cfg: EscposConfig, payload: seq<byte>, budget: Option<nat>): (r: Outcome<BleError>)
    ensures r == Fail(MissingAddress) <==> cfg.printerAddr == []
    ensures r == Fail(DeviceNotFound) <==> cfg.printerAddr != [] && !BleIsAvailable(advertised, cfg.printerAddr)
    ensures r == Fail(NotConnected) <==>
      cfg.printerAddr != [] && BleIsAvailable(advertised, cfg.printerAddr) && !FindDeviceByAddress(advertised, cfg.printerAddr).value.connects
    ensures cfg.printerAddr != [] && BleIsAvailable(advertised, cfg.printerAddr) && FindDeviceByAddress(advertised, cfg.printerAddr).value.connects &&
            CharUuid(cfg, FindDeviceByAddress(advertised, cfg.printerAddr).value).Failure? ==>
      r == Fail(CharUuid(cfg, FindDeviceByAddress(advertised, cfg.printerAddr).value).error)
    ensures r.Pass? <==>
      cfg.printerAddr != [] && BleIsAvailable(advertised, cfg.printerAddr) && FindDeviceByAddress(advertised, cfg.printerAddr).value.connects &&
      CharUuid(cfg, FindDeviceByAddress(advertised, cfg.printerAddr).value).Success? && cfg.chunkSize != 0 &&
      Accepted(budget, |SessionChunks(payload, cfg.chunkSize)|) == |SessionChunks(payload, cfg.chunkSize)|
    ensures r.Pass? || r == Fail(WriteFailed) ==>
      FindDeviceByAddress(advertised, cfg.printerAddr).Some? && CharUuid(cfg, FindDeviceByAddress(advertised, cfg.printerAddr).value).Success?
    ensures r == Fail(WriteFailed) ==> budget.Some? && budget.value < |SessionChunks(payload, cfg.chunkSize)|
  {
    if cfg.printerAddr == [] then Fail(MissingAddress)
    else
      match FindDeviceByAddress(advertised, cfg.printerAddr)
      case None => Fail(DeviceNotFound)
      case Some(device) =>
        if !device.connects then Fail(NotConnected)
        else
          match CharUuid(cfg, device)
          case Failure(e) => Fail(e)
          case Success(_) =>
            var chunks := SessionChunks(payload, cfg.chunkSize);
            if cfg.chunkSize == 0 then Fail(ZeroChunkStep)
            else if Accepted(budget, |chunks|) < |chunks| then Fail(WriteFailed)
            else Pass
  }

  /**
    The writes the printer receives from `_print_over_ble`: none when it
    fails before writing or the chunk size is negative; otherwise the
    chunks the link accepts, in order, to the chosen characteristic without
    response.  The printer receives a prefix of the payload, all of it
    exactly when the print passes with a positive chunk size.
  */
  function PrintWrites(advertised: seq<Device>, cfg: EscposConfig, payload: seq<byte>, budget: Option<nat>): (r: seq<GattWrite>)
    ensures var o := PrintOutcome(advertised, cfg, payload, budget);
            (o.Fail? && o.error != WriteFailed) || cfg.chunkSize < 0 ==> r == []
    ensures Flatten(DataOf(r)) <= payload
    ensures PrintOutcome(advertised, cfg, payload, budget).Pass? && cfg.chunkSize > 0 ==> Flatten(DataOf(r)) == payload
    ensures PrintOutcome(advertised, cfg, payload, budget) == Fail(WriteFailed) ==> Flatten(DataOf(r)) < payload
    ensures forall k :: 0 <= k < |r| ==>
      0 < |r[k].data| <= cfg.chunkSize && !r[k].response && AddressMatches(r[k].device, cfg.printerAddr) &&
      r[k].charUuid == CharUuid(cfg, FindDeviceByAddress(advertised, cfg.printerAddr).value).value
  {
    var o := PrintOutcome(advertised, cfg, payload, budget);
    if o.Fail? && o.error != WriteFailed then
      assert Flatten([]) == [];
      []
    else
      var device := FindDeviceByAddress(advertised, cfg.printerAddr).value;
      var uuid := CharUuid(cfg, device).value;
      var chunks := SessionChunks(payload, cfg.chunkSize);
      var sent := Accepted(budget, |chunks|);
      DataOfWrites(device, uuid, chunks[..sent], false);
      FlattenPrefix(chunks, sent);
      assert chunks[..|chunks|] == chunks;
      Writes(device, uuid, chunks[..sent], false)
  }

  /** Once a characteristic is chosen with a non-zero step, the print writes the chunks the link accepts and fails exactly when it refuses one. */
  lemma PrintRuns(advertised: seq<Device>, cfg: EscposConfig, payload: seq<byte>, budget: Option<nat>)
    requires cfg.printerAddr != [] && cfg.chunkSize != 0
    requires FindDeviceByAddress(advertised, cfg.printerAddr).Some?
    requires FindDeviceByAddress(advertised, cfg.printerAddr).value.connects
    requires CharUuid(cfg, FindDeviceByAddress(advertised, cfg.printerAddr).value).Success?
    ensures var device := FindDeviceByAddress(advertised, cfg.printerAddr).value;
            var chunks := SessionChunks(payload, cfg.chunkSize);
            var sent := Accepted(budget, |chunks|);
            PrintWrites(advertised, cfg, payload, budget) == Writes(device, CharUuid(cfg, device).value, chunks[..sent], false) &&
            PrintOutcome(advertised, cfg, payload, budget) == if sent < |chunks| then Fail(WriteFailed) else Pass
  {
  }

  /** The slices of `payload` from index i on, as `range(i, len(payload), n)` yields them. */
  function SlicesFrom(payload: seq<byte>, i: nat, n: nat): seq<seq<byte>>
    requires n > 0
  {
    if i >= |payload| then [] else Slices(payload[i..], n)
  }

  /** One turn of the index loop takes `payload[i : i + n]`, clamped at the end. */
  lemma SlicesFromStep(payload: seq<byte>, i: nat, n: nat)
    requires n > 0 && i < |payload|
    ensures SlicesFrom(payload, i, n) == [payload[i..Min(i + n, |payload|)]] + SlicesFrom(payload, i + n, n)
  {
    var rest := payload[i..];
    if |rest| > n {
      assert Slices(rest, n) == [rest[..n]] + Slices(rest[n..], n);
      assert rest[..n] == payload[i..i + n];
      assert rest[n..] == payload[i + n..];
    } else {
      assert Slices(rest, n) == [rest];
      assert rest == payload[i..|payload|];
    }
  }

  /**
    The index loop of `_print_over_ble`: `payload[i : i + n]` for i = 0, n,
    2n, ... below `len(payload)`, stopping at the first write that raises.
  */
  method WriteChunks(radio: Radio, device: Device, charUuid: string, payload: seq<byte>, n: nat) returns (ok: bool)
    requires n > 0
    modifies radio
    ensures var chunks := Slices(payload, n);
            var sent := Accepted(old(radio.budget), |chunks|);
            (ok <==> sent == |chunks|) &&
            radio.log == old(radio.log) + Writes(device, charUuid, chunks[..sent], false) &&
            radio.budget == BudgetAfter(old(radio.budget), sent)
  {
    ghost var budget := radio.budget;
    ghost var chunks := Slices(payload, n);
    ghost var written: seq<seq<byte>> := [];
    var i := 0;
    while i < |payload|
      invariant written + SlicesFrom(payload, i, n) == chunks
      invariant budget.Some? ==> |written| <= budget.value
      invariant radio.log == old(radio.log) + Writes(device, charUuid, written, false)
      invariant radio.budget == BudgetAfter(budget, |written|)
      decreases |payload| - i
    {
      var chunk := payload[i..Min(i + n, |payload|)];
      NextSlice(payload, i, n, written);
      ghost var logBefore := radio.log;
      var accepted := radio.WriteGattChar(device, charUuid, chunk, false);
      if !accepted {
        StoppedEarly(budget, chunks, written);
        return false;
      }
      LogStep(old(radio.log), logBefore, radio.log, device, charUuid, written, chunk);
      written := written + [chunk];
      i := i + n;
    }
    WroteAll(payload, i, n, budget, chunks, written);
    return true;
  }

  /** One more accepted write extends the log by that chunk's write. */
  lemma LogStep(log0: seq<GattWrite>, log1: seq<GattWrite>, log2: seq<GattWrite>, device: Device, charUuid: string,
                written: seq<seq<byte>>, chunk: seq<byte>)
    requires log1 == log0 + Writes(device, charUuid, written, false)
    requires log2 == log1 + [GattWrite(device, charUuid, chunk, false)]
    ensures log2 == log0 + Writes(device, charUuid, written + [chunk], false)
  {
    WritesSnoc(device, charUuid, written, chunk, false);
  }

  /** A write refused with `written` sent: the link accepted exactly those, a proper prefix of the slices. */
  lemma StoppedEarly(budget: Option<nat>, chunks: seq<seq<byte>>, written: seq<seq<byte>>)
    requires budget == Some(|written|)
    requires |written| < |chunks| && chunks[..|written|] == written
    ensures Accepted(budget, |chunks|) == |written| < |chunks|
    ensures chunks[..Accepted(budget, |chunks|)] == written
  {
  }

  /** Every slice written within the budget: the link accepted all of them. */
  lemma WroteAll(payload: seq<byte>, i: nat, n: nat, budget: Option<nat>, chunks: seq<seq<byte>>, written: seq<seq<byte>>)
    requires n > 0 && i >= |payload|
    requires written + SlicesFrom(payload, i, n) == chunks
    requires budget.Some? ==> |written| <= budget.value
    ensures Accepted(budget, |chunks|) == |chunks|
    ensures chunks[..Accepted(budget, |chunks|)] == written
  {
    assert written + [] == written;
  }

  /** Taking the next slice keeps `written` a proper prefix of the slices, followed by what is left. */
  lemma NextSlice(payload: seq<byte>, i: nat, n: nat, written: seq<seq<byte>>)
    requires n > 0 && i < |payload|
    requires written + SlicesFrom(payload, i, n) == Slices(payload, n)
    ensures (written + [payload[i..Min(i + n, |payload|)]]) + SlicesFrom(payload, i + n, n) == Slices(payload, n)
    ensures |written| < |Slices(payload, n)| && Slices(payload, n)[..|written|] == written
  {
    SlicesFromStep(payload, i, n);
    var rest := SlicesFrom(payload, i + n, n);
    var chunk := payload[i..Min(i + n, |payload|)];
    assert (written + [chunk]) + rest == written + ([chunk] + rest);
    assert (written + SlicesFrom(payload, i, n))[..|written|] == written;
  }

  /**
    `_print_over_ble(from_name, question)`: check the address, build the
    ticket, connect, choose the characteristic, then write the ticket with
    the index loop `for i in range(0, len(payload), BLE_CHUNK_SIZE)`.
  */
  method PrintOverBle(radio: Radio, cfg: EscposConfig, fromName: string, question: string, timeStr: string, dateStr: string)
    returns (r: Outcome<BleError>)
    modifies radio
    ensures var payload := BuildEscposTicket(fromName, question, timeStr, dateStr);
            var w := PrintWrites(radio.advertised, cfg, payload, old(radio.budget));
            r == PrintOutcome(radio.advertised, cfg, payload, old(radio.budget)) &&
            radio.log == old(radio.log) + w && radio.budget == BudgetAfter(old(radio.budget), |w|)
  {
    if cfg.printerAddr == [] {
      return Fail(MissingAddress);
    }
    var payload := BuildEscposTicket(fromName, question, timeStr, dateStr);
    var found := FindDeviceByAddress(radio.advertised, cfg.printerAddr);
    if found.None? {
      return Fail(DeviceNotFound);
    }
    var device := found.value;
    if !device.connects {
      return Fail(NotConnected);
    }
    var charUuid := cfg.writeCharUuid;
    if charUuid == [] {
      var picked := AutoPickWriteCharUuid(device.services);
      if picked.Failure? {
        return Fail(picked.error);
      }
      charUuid := Lower(picked.value);
    }
    var n := cfg.chunkSize;
    if n == 0 {
      // range() raises ValueError for a zero step
      return Fail(ZeroChunkStep);
    }
    assert charUuid == CharUuid(cfg, device).value;
    PrintRuns(radio.advertised, cfg, payload, radio.budget);
    if n > 0 {
      var ok := WriteChunks(radio, device, charUuid, payload, n);
      if !ok {
        return Fail(WriteFailed);
      }
    }
    // a negative step gives an empty range: nothing is written
    return Pass;
  }
}
