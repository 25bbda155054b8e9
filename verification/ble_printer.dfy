/**
  ble_printer.py: the ESC/POS payloads for text, for an image and for
  text followed by an image, and the BLE write session that sends a
  payload in chunks to one characteristic of the printer.
*/
module BlePrinter {
  import opened Wrappers
  import opened Bytes
  import opened PyStr
  import opened Utf8
  import opened Chunking
  import opened Escpos
  import opened Raster
  import opened Gatt

  /** The characteristic written when BLE_WRITE_UUID is unset or blank. */
  const DefaultWriteUuid: string := "00002af1-0000-1000-8000-00805f9b34fb"

  /** BLE_WRITE_UUID, BLE_CHUNK_SIZE and BLE_IMAGE_CHUNK_SIZE. */
  datatype BleConfig = BleConfig(writeUuid: string, chunkSize: int, imageChunkSize: int)

  /** The settings when the environment sets none of them. */
  const DefaultConfig: BleConfig := BleConfig(DefaultWriteUuid, 20, 100)

  /** BLE_WRITE_UUID: the environment value stripped of whitespace, or the default when that leaves nothing. */
  function WriteUuidSetting(env: Option<string>): (r: string)
    ensures r != []
    ensures env.Some? && !AllSpace(env.value) ==> r == Strip(env.value)
    ensures (env.None? || AllSpace(env.value)) ==> r == DefaultWriteUuid
  {
    StripSpec(env.GetOr(""));
    var s := Strip(env.GetOr(""));
    if s == [] then DefaultWriteUuid else s
  }

  // ---------------------------------------------------------------------
  // The write session `_ble_write(addr, payload, chunk_size)`
  // ---------------------------------------------------------------------

  /**
    How a write session ends: the scan must find the printer, the
    connection must come up, the chunk loop must not be given a step of
    zero, and the link must accept every chunk.  All but the last failure
    come before the first write.
  */
  function SessionOutcome(advertised: seq<Device>, addr: string, payload: seq<byte>, n: int, budget: Option<nat>): (r: Outcome<BleError>)
    ensures r == Fail(DeviceNotFound) <==> !BleIsAvailable(advertised, addr)
    ensures r == Fail(NotConnected) <==> BleIsAvailable(advertised, addr) && !FindDeviceByAddress(advertised, addr).value.connects
    ensures r.Pass? <==> BleIsAvailable(advertised, addr) && FindDeviceByAddress(advertised, addr).value.connects && n != 0 &&
                         Accepted(budget, |SessionChunks(payload, n)|) == |SessionChunks(payload, n)|
  {
    var found := FindDeviceByAddress(advertised, addr);
    if found.None? then Fail(DeviceNotFound)
    else if !found.value.connects then Fail(NotConnected)
    else if n == 0 then Fail(ZeroChunkStep)
    else if Accepted(budget, |SessionChunks(payload, n)|) < |SessionChunks(payload, n)| then Fail(WriteFailed)
    else Pass
  }

  /**
    The writes the printer receives in a write session: none when it fails
    before writing or the chunk size is negative; otherwise one write
    without response of each chunk the link accepts, to the printer the
    scan found.  Whatever happens the printer receives a prefix of the
    payload, at most once: all of it when the session passes with a
    positive chunk size, nothing at all when it passes with a negative one
    (the empty `range()`), and strictly less when a write fails.
  */
  function SessionWrites(advertised: seq<Device>, uuid: string, addr: string, payload: seq<byte>, n: int, budget: Option<nat>)
    : (r: seq<GattWrite>)
    ensures var o := SessionOutcome(advertised, addr, payload, n, budget);
            (o.Fail? && o.error != WriteFailed) || n < 0 ==> r == []
    ensures Flatten(DataOf(r)) <= payload
    ensures SessionOutcome(advertised, addr, payload, n, budget).Pass? && n > 0 ==> Flatten(DataOf(r)) == payload
    ensures SessionOutcome(advertised, addr, payload, n, budget) == Fail(WriteFailed) ==>
      Flatten(DataOf(r)) < payload && budget.Some? && |r| == budget.value
    ensures forall k :: 0 <= k < |r| ==>
      0 < |r[k].data| <= n && r[k].charUuid == uuid && !r[k].response && AddressMatches(r[k].device, addr)
  {
    var found := FindDeviceByAddress(advertised, addr);
    var chunks := SessionChunks(payload, n);
    if found.None? || !found.value.connects || n <= 0 then
      assert Flatten([]) == [];
      []
    else
      var sent := Accepted(budget, |chunks|);
      DataOfWrites(found.value, uuid, chunks[..sent], false);
      FlattenPrefix(chunks, sent);
      assert chunks[..|chunks|] == chunks;
      Writes(found.value, uuid, chunks[..sent], false)
  }

  /** Once connected with a non-zero step, the session writes the chunks the link accepts and fails exactly when it refuses one. */
  lemma SessionRuns(advertised: seq<Device>, uuid: string, addr: string, payload: seq<byte>, n: int, budget: Option<nat>)
    requires FindDeviceByAddress(advertised, addr).Some? && FindDeviceByAddress(advertised, addr).value.connects && n != 0
    ensures var chunks := SessionChunks(payload, n);
            var sent := Accepted(budget, |chunks|);
            SessionWrites(advertised, uuid, addr, payload, n, budget) == Writes(FindDeviceByAddress(advertised, addr).value, uuid, chunks[..sent], false) &&
            SessionOutcome(advertised, addr, payload, n, budget) == if sent < |chunks| then Fail(WriteFailed) else Pass
  {
  }

  /**
    `_ble_write(addr, payload, chunk_size)`: scan, connect, then write the
    chunks of `payload` one by one with `response=False`, stopping at the
    first write that raises.  `chunkSize` None stands for the default
    argument, which takes BLE_CHUNK_SIZE.
  */
  method BleWrite(radio: Radio, cfg: BleConfig, addr: string, payload: seq<byte>, chunkSize: Option<int>)
    returns (r: Outcome<BleError>)
    modifies radio
    ensures var n := chunkSize.GetOr(cfg.chunkSize);
            r == SessionOutcome(radio.advertised, addr, payload, n, old(radio.budget)) &&
            radio.log == old(radio.log) + SessionWrites(radio.advertised, cfg.writeUuid, addr, payload, n, old(radio.budget)) &&
            radio.budget == BudgetAfter(old(radio.budget), |SessionWrites(radio.advertised, cfg.writeUuid, addr, payload, n, old(radio.budget))|)
  {
    var n := if chunkSize.None? then cfg.chunkSize else chunkSize.value;
    var device := FindDeviceByAddress(radio.advertised, addr);
    if device.None? {
      return Fail(DeviceNotFound);
    }
    if !device.value.connects {
      return Fail(NotConnected);
    }
    var parts := Chunk(payload, n);
    if parts.Failure? {
      return Fail(ZeroChunkStep);
    }
    var chunks := parts.value;
    SessionRuns(radio.advertised, cfg.writeUuid, addr, payload, n, radio.budget);
    assert chunks == SessionChunks(payload, n);
    var ok := WriteEach(radio, device.value, cfg.writeUuid, chunks);
    if !ok {
      return Fail(WriteFailed);
    }
    return Pass;
  }

  /** The loop of `_ble_write`: each chunk in turn with `response=False`, stopping at the first write that raises. */
  method WriteEach(radio: Radio, device: Device, uuid: string, chunks: seq<seq<byte>>) returns (ok: bool)
    modifies radio
    ensures var sent := Accepted(old(radio.budget), |chunks|);
            (ok <==> sent == |chunks|) &&
            radio.log == old(radio.log) + Writes(device, uuid, chunks[..sent], false) &&
            radio.budget == BudgetAfter(old(radio.budget), sent)
  {
    ghost var budget := radio.budget;
    for k := 0 to |chunks|
      invariant budget.Some? ==> k <= budget.value
      invariant radio.log == old(radio.log) + Writes(device, uuid, chunks[..k], false)
      invariant radio.budget == BudgetAfter(budget, k)
    {
      var accepted := radio.WriteGattChar(device, uuid, chunks[k], false);
      if !accepted {
        return false;
      }
      WritesSnoc(device, uuid, chunks[..k], chunks[k], false);
      assert chunks[..k + 1] == chunks[..k] + [chunks[k]];
    }
    assert chunks[..|chunks|] == chunks;
    return true;
  }


  // ---------------------------------------------------------------------
  // Payloads
  // ---------------------------------------------------------------------

  /** The image can be rasterised: its pixels fill it, and a wider one comes with its 384-dot-wide resize. */
  predicate Printable(image: Bitmap, resized: Bitmap)
  {
    image.Valid() && (image.width > MaxWidth ==> resized.Valid() && resized.width == MaxWidth)
  }

  /** The payload of `ble_print_image`: initialise, the raster command, feed and cut. */
  function ImagePayload(image: Bitmap, resized: Bitmap): (r: seq<byte>)
    requires Printable(image, resized)
  {
    Init + RasterCommand(Prepare(image, MaxWidth, resized)) + Footer
  }

  /** The payload of `ble_print_text_with_image`: the text, then a newline and the raster command when there is an image. */
  function TextWithImagePayload(text: string, image: Option<Bitmap>, resized: Bitmap): (r: seq<byte>)
    requires image.Some? ==> Printable(image.value, resized)
  {
    Init + Encode(text)
    + (if image.Some? then [0x0A] + RasterCommand(Prepare(image.value, MaxWidth, resized)) else [])
    + Footer
  }

  /** An image payload is the raster command between the two halves of a frame. */
  lemma ImagePayloadLayout(image: Bitmap, resized: Bitmap)
    requires Printable(image, resized)
    ensures var img := Prepare(image, MaxWidth, resized);
            var p := ImagePayload(image, resized);
            |p| == 16 + img.height * BytesPerLine(img.width) &&
            p[..2] == Init && p[2..|p| - 6] == RasterCommand(img) && p[|p| - 6..] == Footer
  {
    var img := Prepare(image, MaxWidth, resized);
    RasterLength(img);
    var p := ImagePayload(image, resized);
    assert p[2..|p| - 6] == RasterCommand(img);
  }

  /** Without an image, text with image is exactly the text frame. */
  lemma TextOnlyPayloadIsFrame(text: string, resized: Bitmap)
    ensures TextWithImagePayload(text, None, resized) == EscposFrame(text)
  {
    assert Init + Encode(text) + [] + Footer == Init + Encode(text) + Footer;
  }

  /**
    With an image, the payload is initialise, the text, one newline, the
    raster command, feed and cut, in that order and nothing else.
  */
  lemma TextWithImageLayout(text: string, image: Bitmap, resized: Bitmap)
    requires Printable(image, resized)
    ensures var img := Prepare(image, MaxWidth, resized);
            var e := Encode(text);
            var p := TextWithImagePayload(text, Some(image), resized);
            |p| == 17 + |e| + img.height * BytesPerLine(img.width) &&
            p[..2] == Init && p[2..2 + |e|] == e && p[2 + |e|] == 0x0A &&
            p[3 + |e|..|p| - 6] == RasterCommand(img) && p[|p| - 6..] == Footer
  {
    var img := Prepare(image, MaxWidth, resized);
    var e := Encode(text);
    RasterLength(img);
    var p := TextWithImagePayload(text, Some(image), resized);
    assert p == Init + e + [0x0A] + RasterCommand(img) + Footer;
    assert p[2..2 + |e|] == e;
    assert p[3 + |e|..|p| - 6] == RasterCommand(img);
  }

  /** Builds the payload of `ble_print_image`. */
  method BuildImagePayload(image: Bitmap, resized: Bitmap) returns (payload: seq<byte>)
    requires Printable(image, resized)
    ensures payload == ImagePayload(image, resized)
  {
    var imageData := ImageToRaster(image, MaxWidth, resized);
    payload := Init + imageData + Footer;
  }

  /** Builds the payload of `ble_print_text_with_image` step by step, as the source appends to it. */
  method BuildTextWithImagePayload(text: string, image: Option<Bitmap>, resized: Bitmap) returns (payload: seq<byte>)
    requires image.Some? ==> Printable(image.value, resized)
    ensures payload == TextWithImagePayload(text, image, resized)
  {
    payload := Init + Encode(text);
    if image.Some? {
      payload := payload + [0x0A];
      var raster := ImageToRaster(image.value, MaxWidth, resized);
      payload := payload + raster;
    }
    payload := payload + Footer;
  }

  // ---------------------------------------------------------------------
  // The print entry points
  // ---------------------------------------------------------------------

  /** `ble_print_text(addr, text)`: the text frame, in chunks of BLE_CHUNK_SIZE. */
  method BlePrintText(radio: Radio, cfg: BleConfig, addr: string, text: string) returns (r: Outcome<BleError>)
    modifies radio
    ensures var w := SessionWrites(radio.advertised, cfg.writeUuid, addr, EscposFrame(text), cfg.chunkSize, old(radio.budget));
            r == SessionOutcome(radio.advertised, addr, EscposFrame(text), cfg.chunkSize, old(radio.budget)) &&
            radio.log == old(radio.log) + w && radio.budget == BudgetAfter(old(radio.budget), |w|)
  {
    var payload := EscposFrame(text);
    r := BleWrite(radio, cfg, addr, payload, None);
  }

  /** `ble_print_image(addr, image)`: the image payload, in chunks of BLE_IMAGE_CHUNK_SIZE. */
  method BlePrintImage(radio: Radio, cfg: BleConfig, addr: string, image: Bitmap, resized: Bitmap) returns (r: Outcome<BleError>)
    requires Printable(image, resized)
    modifies radio
    ensures var w := SessionWrites(radio.advertised, cfg.writeUuid, addr, ImagePayload(image, resized), cfg.imageChunkSize, old(radio.budget));
            r == SessionOutcome(radio.advertised, addr, ImagePayload(image, resized), cfg.imageChunkSize, old(radio.budget)) &&
            radio.log == old(radio.log) + w && radio.budget == BudgetAfter(old(radio.budget), |w|)
  {
    var payload := BuildImagePayload(image, resized);
    r := BleWrite(radio, cfg, addr, payload, Some(cfg.imageChunkSize));
  }

  /** The chunk size `ble_print_text_with_image` uses: the image one exactly when there is an image. */
  function TextWithImageChunkSize(cfg: BleConfig, image: Option<Bitmap>): (n: int)
    ensures n == cfg.imageChunkSize || n == cfg.chunkSize
    ensures image.None? ==> n == cfg.chunkSize
    ensures image.Some? ==> n == cfg.imageChunkSize
  {
    if image.Some? then cfg.imageChunkSize else cfg.chunkSize
  }

  /** `ble_print_text_with_image(addr, text, image)`. */
  method BlePrintTextWithImage(radio: Radio, cfg: BleConfig, addr: string, text: string, image: Option<Bitmap>, resized: Bitmap)
    returns (r: Outcome<BleError>)
    requires image.Some? ==> Printable(image.value, resized)
    modifies radio
    ensures var p := TextWithImagePayload(text, image, resized);
            var n := TextWithImageChunkSize(cfg, image);
            var w := SessionWrites(radio.advertised, cfg.writeUuid, addr, p, n, old(radio.budget));
            r == SessionOutcome(radio.advertised, addr, p, n, old(radio.budget)) &&
            radio.log == old(radio.log) + w && radio.budget == BudgetAfter(old(radio.budget), |w|)
  {
    var payload := BuildTextWithImagePayload(text, image, resized);
    if image.Some? {
      r := BleWrite(radio, cfg, addr, payload, Some(cfg.imageChunkSize));
    } else {
      r := BleWrite(radio, cfg, addr, payload, None);
    }
  }

  /** Text with no image is sent exactly as `ble_print_text` sends the text: same outcome, same writes. */
  lemma TextWithoutImageIsPlainText(advertised: seq<Device>, cfg: BleConfig, addr: string, text: string, resized: Bitmap, budget: Option<nat>)
    ensures var p := TextWithImagePayload(text, None, resized);
            var n := TextWithImageChunkSize(cfg, None);
            SessionOutcome(advertised, addr, p, n, budget) == SessionOutcome(advertised, addr, EscposFrame(text), cfg.chunkSize, budget) &&
            SessionWrites(advertised, cfg.writeUuid, addr, p, n, budget) == SessionWrites(advertised, cfg.writeUuid, addr, EscposFrame(text), cfg.chunkSize, budget)
  {
    TextOnlyPayloadIsFrame(text, resized);
  }

  /**
    With the default settings and a link that does not fault, a reachable
    printer receives the whole text frame in writes of at most 20 bytes.
  */
  lemma DefaultTextDelivery(advertised: seq<Device>, addr: string, text: string)
    requires BleIsAvailable(advertised, addr) && FindDeviceByAddress(advertised, addr).value.connects
    ensures var w := SessionWrites(advertised, DefaultWriteUuid, addr, EscposFrame(text), DefaultConfig.chunkSize, None);
            SessionOutcome(advertised, addr, EscposFrame(text), DefaultConfig.chunkSize, None).Pass? &&
            Flatten(DataOf(w)) == EscposFrame(text) && |w| == (|EscposFrame(text)| + 19) / 20 &&
            forall k :: 0 <= k < |w| ==> |w[k].data| <= 20
  {
    var chunks := SessionChunks(EscposFrame(text), 20);
    assert chunks[..|chunks|] == chunks;
  }
}
