# ESP32-S3-Touch-LCD-4.3C firmware core in Dafny

This project models the board-support drivers and example helpers of the
Waveshare ESP32-S3-Touch-LCD-4.3C example firmware, and proves what they
compute. The board has an 800x480 RGB panel, a GT911 touch controller, an
I2C IO expander (the backlight, the SD card select, the isolated DI/DO lines,
PWM and ADC), a PCF85063A real-time clock and an SD slot. The firmware's
examples use these parts to show pictures, play music, scan Wi-Fi and talk
UDP/TCP.

Every driver is written as pure functions over immutable state. The I2C
traffic a driver produces is returned as a sequence of bus operations
(`I2cBus.Op`). Whatever a driver receives from the bus, the card or the
network is a parameter. So each contract says two things: which bytes
go out, and what the driver makes of the bytes that come back.

Modules, following the firmware's components:

- `Bytes`, `Optional`, `Text`, `FileNames`: shared pieces.
  - `Bytes`: bytes and words as bit-vectors, C integer conversions (truncating division, `uint8_t` and `int` casts), and the C string in a byte buffer.
  - `Text`: `%d` printing and parsing.
  - `FileNames`: suffix matching as `strcasecmp` does it, and path joining.
- `I2cBus`: the `DEV_I2C` helpers, as recorded bus operations.
- `IoExtension`: the IO-expander driver, with its shadow of the output register.
- `Pcf85063a`: the RTC driver. Its BCD codec is modelled in both copies, the ESP-IDF one (`int` argument) and the Arduino one (`uint8_t` argument). Register writes and reads are tied together through an 18-register (0x00..0x11) model of the chip.
- `Gt911`: the touch decoder.
  - It covers the status byte, the key path, the point path with its clamp and decode, `get_xy` and `get_button_state`.
  - It also covers sleep and the address-select strap.
- `Net`: the UDP/TCP example's `net.c`.
  - It covers the learned server address, the two send queues, the worker, connect with a timeout, and one step of a TCP session.
- `GuiBmp`: the `RGB` macro and the BMP loader, covering header fields, row stride, pixel extraction for each bit depth, and bottom-up drawing.
- `LcdPort`: drawing a window of the frame and the full frame, and the backlight switch.
- `SdCapacity`: the FatFs and Arduino capacity arithmetic, and the SD example's status lines.
- `BmpViewer`, `MusicLibrary`, `WifiScanView`, `IsolationTest`: the example helpers.
  - `BmpViewer` covers the BMP list and the arrow carousel.
  - `MusicLibrary` covers the MP3 list and the track tables.
  - `WifiScanView` covers the SSID filter and the row layout.
  - `IsolationTest` covers the DI/DO loop-back test.

In a few places the code does something other than its comments, names or types suggest; the model follows the code:

- The RTC's BCD round trip holds for 0..159, not only 0..99. The year register round-trips for 1970..2129, and from 2070 on it is no longer BCD: 2095 is written as 0xC5.
- 4- and 8-bit BMPs come out black, because the palette table is never filled from the file.
- The expander's PWM value is clamped to 95 first and scaled after.
- A window that starts left of or above the screen keeps its end past the screen's edge, and its rows are read row-major from the frame.
- The FatFs total in KB wraps to 0 at 4 TiB. The SD example's printed size turns negative from 2 TiB on, because of the `(int)` cast.
- The Arduino available space wraps when the used bytes exceed the card size.
- With 256 BMP files the 8-bit count reads 0 and the viewer reports an empty card.
- The ESP-IDF Wi-Fi list examines all 15 AP records whatever the scan found, so records the scan left zeroed are drawn as empty rows.

## Model

| member | source | states |
|---|---|---|
| I2cBus.WriteByte | examples/esp-idf/06_touch/components/i2c/i2c.c:88-92 | A register write sends the register address, then the value, as one two-byte write |
| I2cBus.ReadWordValue | examples/esp-idf/06_touch/components/i2c/i2c.c:119-124 | The 16-bit value read has the first received byte as its low byte and the second as its high byte |
| Bytes.WordByOr | examples/esp-idf/06_touch/components/i2c/i2c.c:123 | Joining the two bytes with OR gives the same word as joining them with addition, because the fields do not overlap |
| Bytes.WordSplits | examples/esp-idf/06_touch/components/i2c/i2c.c:123 | A word built from two bytes splits back into exactly those bytes |
| Bytes.WordJoins | examples/esp-idf/06_touch/components/i2c/i2c.c:123 | Every word is rebuilt from its own low and high byte |
| Bytes.AsInt32 | examples/esp-idf/05_sd/main/main.c:62 | A 32-bit unsigned value cast to `int` keeps its value below 2^31 and is the same value modulo 2^32 otherwise |
| IoExtension.PinMask | examples/arduino/examples/02_rtc/src/io_extension/io_extension.cpp:63-65 | A pin below 8 selects exactly its own bit; a larger pin number shifts out of the byte and selects none |
| IoExtension.Init | examples/arduino/examples/02_rtc/src/io_extension/io_extension.cpp:38-48 | Init writes 0xFF to the mode register and starts both shadows at 0xFF |
| IoExtension.IoMode | examples/arduino/examples/02_rtc/src/io_extension/io_extension.cpp:25-30 | The mode mask goes to the mode register as given, and no shadow changes |
| IoExtension.Output | examples/arduino/examples/02_rtc/src/io_extension/io_extension.cpp:59-70 | The pin's shadow bit becomes "value is 1" and every other bit is kept; the whole shadow byte is then written to the output register |
| IoExtension.Input | examples/arduino/examples/02_rtc/src/io_extension/io_extension.cpp:81-89 | One input-register byte is read, and the result is 1 exactly when the pin's bit is set in it |
| IoExtension.PwmLevel | examples/arduino/examples/02_rtc/src/io_extension/io_extension.cpp:101-105 | Duty values at or above 95 become 95; lower values are unchanged |
| IoExtension.PwmOutput | examples/arduino/examples/02_rtc/src/io_extension/io_extension.cpp:99-112 | The PWM register receives the scaled clamped level, and no shadow changes |
| IoExtension.PwmSaturates | examples/arduino/examples/02_rtc/src/io_extension/io_extension.cpp:102-105 | Every duty value of 95 or more produces the same bus traffic as 95 |
| IoExtension.AdcInput | examples/arduino/examples/02_rtc/src/io_extension/io_extension.cpp:121-125 | A two-byte read of the ADC register, joined little-endian |
| IoExtension.RtcIntRead | examples/arduino/examples/02_rtc/src/io_extension/io_extension.cpp:135-139 | Two bytes are read from the RTC-interrupt register and the first one is the result |
| IoExtension.OutputScenario | examples/arduino/examples/02_rtc/src/io_extension/io_extension.cpp:59-70 | From the initial state, clearing line 5 and then setting line 2 leaves the shadow at 0xDF |
| IoExtension.OutputLastWins | examples/arduino/examples/02_rtc/src/io_extension/io_extension.cpp:59-70 | Two writes to the same pin leave the shadow as the second write alone would |
| IoExtension.OutputCommutes | examples/arduino/examples/02_rtc/src/io_extension/io_extension.cpp:59-70 | Writes to two different pins give the same shadow in either order |
| IoExtension.OutputNoChange | examples/arduino/examples/02_rtc/src/io_extension/io_extension.cpp:59-70 | Writing the level a pin already has leaves the state unchanged |
| Pcf85063a.DecToBcd | examples/arduino/examples/08_wifi_scan/src/rtc_pcf85063a/rtc_pcf85063a.cpp:176-178 | For values below 160 the high nibble holds the tens and the low nibble the units; below 100 the byte is valid BCD |
| Pcf85063a.BcdToDec | examples/arduino/examples/08_wifi_scan/src/rtc_pcf85063a/rtc_pcf85063a.cpp:185-187 | A decoded byte is at most 165, and below 100 when the input is valid BCD |
| Pcf85063a.BcdRoundTrip | examples/arduino/examples/08_wifi_scan/src/rtc_pcf85063a/rtc_pcf85063a.cpp:176-187 | Decoding the encoding gives the value back, for every value from 0 to 159 |
| Pcf85063a.BcdInverse | examples/arduino/examples/08_wifi_scan/src/rtc_pcf85063a/rtc_pcf85063a.cpp:176-187 | Every valid BCD byte is the encoding of its own decoded value |
| Pcf85063a.EspDecToBcd | examples/esp-idf/03_lcd/components/rtc_pcf85063a/rtc_pcf85063a.c:158-161 | The `int` version, with C truncating division and the byte cast, agrees with the byte version on 0..255 |
| Pcf85063a.YearByte | examples/esp-idf/03_lcd/components/rtc_pcf85063a/rtc_pcf85063a.c:57-65 | The year register gets the BCD of `year - 1970`; the Arduino copy truncates the difference to a byte first |
| Pcf85063a.YearBytesAgree | examples/esp-idf/03_lcd/components/rtc_pcf85063a/rtc_pcf85063a.c:158-161 | For 1970..2225 both copies write the same year byte |
| Pcf85063a.YearBytesDifferBefore1970 | examples/arduino/examples/08_wifi_scan/src/rtc_pcf85063a/rtc_pcf85063a.cpp:176-178 | For 1969 the copies disagree: the Arduino copy writes 0x95 and the ESP-IDF copy 0xFF |
| Pcf85063a.Init | examples/esp-idf/03_lcd/components/rtc_pcf85063a/rtc_pcf85063a.c:24-31 | Init is a single write to control register 1: the default value with the capacitor-select bit |
| Pcf85063a.Reset | examples/esp-idf/03_lcd/components/rtc_pcf85063a/rtc_pcf85063a.c:36-40 | Reset writes control register 1 with the software-reset bit added |
| Pcf85063a.SetTime | examples/esp-idf/03_lcd/components/rtc_pcf85063a/rtc_pcf85063a.c:45-52 | Seconds, minutes and hours go as BCD in one burst starting at the seconds register |
| Pcf85063a.SetDate | examples/esp-idf/03_lcd/components/rtc_pcf85063a/rtc_pcf85063a.c:57-65 | Day, weekday, month and year byte go as BCD in one burst starting at the days register |
| Pcf85063a.SetAll | examples/esp-idf/03_lcd/components/rtc_pcf85063a/rtc_pcf85063a.c:70-81 | All seven time and date fields go in one burst starting at the seconds register |
| Pcf85063a.ReadNow | examples/esp-idf/03_lcd/components/rtc_pcf85063a/rtc_pcf85063a.c:86-97 | Each field is the BCD decoding of its register masked to its valid bits (seconds and minutes 0x7F, hours and day 0x3F, weekday 0x07, month 0x1F); the year register is not masked and 1970 is added |
| Pcf85063a.ReadNowIgnoresUnusedBits | examples/esp-idf/03_lcd/components/rtc_pcf85063a/rtc_pcf85063a.c:90-96 | Two register bursts that agree on every field's masked bits read as the same time |
| Pcf85063a.OscillatorStopIgnored | examples/esp-idf/03_lcd/components/rtc_pcf85063a/rtc_pcf85063a.c:90 | A set bit 7 in the seconds register does not change the time read |
| Pcf85063a.EnableAlarm | examples/esp-idf/03_lcd/components/rtc_pcf85063a/rtc_pcf85063a.c:102-107 | Control register 2 is written with the alarm interrupt enabled and the alarm flag cleared |
| Pcf85063a.GetAlarmFlag | examples/esp-idf/03_lcd/components/rtc_pcf85063a/rtc_pcf85063a.c:112-118 | Control register 2 is read and the alarm and interrupt-enable bits are returned |
| Pcf85063a.SetAlarm | examples/esp-idf/03_lcd/components/rtc_pcf85063a/rtc_pcf85063a.c:123-134 | Seconds, minutes and hours are enabled as BCD, and the day and weekday alarms are disabled |
| Pcf85063a.AlarmReadLength | examples/esp-idf/03_lcd/components/rtc_pcf85063a/rtc_pcf85063a.c:142-145 | The ESP-IDF copy reads 7 bytes of alarm registers; the Arduino copy reads 6 |
| Pcf85063a.ReadAlarm | examples/arduino/examples/08_wifi_scan/src/rtc_pcf85063a/rtc_pcf85063a.cpp:161-169 | The alarm fields are decoded with the enable bits masked off, and the other fields of the caller's datetime are kept |
| Pcf85063a.SetTimeThenDate | examples/esp-idf/03_lcd/components/rtc_pcf85063a/rtc_pcf85063a.c:45-81 | Setting the time and then the date leaves the chip's registers as one `Set_All` does |
| Pcf85063a.YearByteIsBcd | examples/esp-idf/08_wifi_scan/components/rtc_pcf85063a/rtc_pcf85063a.h:38 | For 1970..2069 the year register holds valid BCD 00..99 |
| Pcf85063a.YearRoundTrip | examples/esp-idf/03_lcd/components/rtc_pcf85063a/rtc_pcf85063a.c:63-96 | The year written reads back unchanged for 1970..2129 |
| Pcf85063a.SetAllReadNow | examples/esp-idf/03_lcd/components/rtc_pcf85063a/rtc_pcf85063a.c:70-97 | For every valid time and date with a year from 1970 to 2129, what `Set_All` writes, `Read_now` returns |
| Pcf85063a.YearWrapsAt2130 | examples/esp-idf/03_lcd/components/rtc_pcf85063a/rtc_pcf85063a.c:158-169 | 2130 is written as 0x00 and reads back as 1970 |
| Pcf85063a.Year2095Byte | examples/esp-idf/03_lcd/components/rtc_pcf85063a/rtc_pcf85063a.c:158-169 | 2095 is written as 0xC5, which is not BCD |
| Pcf85063a.SetAlarmReadAlarm | examples/esp-idf/03_lcd/components/rtc_pcf85063a/rtc_pcf85063a.c:123-153 | Reading back an alarm just set gives its seconds, minutes and hours, and day and weekday 0 |
| Pcf85063a.DatetimeToStr | examples/esp-idf/03_lcd/components/rtc_pcf85063a/rtc_pcf85063a.c:174-178 | The string is the seven fields in decimal without padding, in the order year, month, day, weekday, hour, minute, second, between the format's separators; it parses back to the seven fields, so different datetimes print differently |
| Pcf85063a.DatetimeToStrExample | examples/esp-idf/03_lcd/components/rtc_pcf85063a/rtc_pcf85063a.c:174-178 | 2025-07-30, weekday 3, 09:05:00 prints as " 2025.7.30  3 9:5:0 ", with no zero padding |
| Text.FormatSeparated | examples/esp-idf/03_lcd/components/rtc_pcf85063a/rtc_pcf85063a.c:176-177 | A `%d` format of a lead and separated fields prints the lead, then each number in decimal followed by its separator |
| Text.DecimalRoundTrip | examples/esp-idf/03_lcd/components/rtc_pcf85063a/rtc_pcf85063a.c:176 | The digits `%d` prints for a natural number read back as that number |
| Text.ScanFormat | examples/esp-idf/03_lcd/components/rtc_pcf85063a/rtc_pcf85063a.c:175-176 | When every `%d` field is followed by a non-digit literal, the printed fields read back in order |
| Gt911.KeyMax | examples/esp-idf/07_display_bmp/components/touch/gt911.c:232-233 | The number of keys reported is the smaller of the chip's 4 and the configured button count |
| Gt911.EmptyData | examples/esp-idf/07_display_bmp/components/touch/gt911.c:72 | The zeroed driver state is well formed and has no points and no buttons |
| Gt911.PointCount | examples/esp-idf/07_display_bmp/components/touch/gt911.c:260 | The point count is the low nibble of the status byte, so at most 15 |
| Gt911.DecodeEncodedPoint | examples/esp-idf/07_display_bmp/components/touch/gt911.c:281-285 | Decoding the 8-byte record of a point gives its x, y and strength back |
| Gt911.ReadData | examples/esp-idf/07_display_bmp/components/touch/gt911.c:213-291 | Covers each branch of `read_data`: a bus error, no touch, keys (which set the key states), and points (buttons cleared, count checked, records read, status cleared, count clamped, each point decoded); the state stays well formed |
| Gt911.PressKeys | examples/esp-idf/07_display_bmp/components/touch/gt911.c:243-247 | Each reported key's state is 1 for a key press and 0 otherwise; the other buttons and the points are unchanged |
| Gt911.StorePoints | examples/esp-idf/07_display_bmp/components/touch/gt911.c:276-285 | The point count is clamped to the configured maximum, each kept point is decoded from its record, and the rest are unchanged |
| Gt911.GetXy | examples/esp-idf/07_display_bmp/components/touch/gt911.c:293-321 | The first min(points, asked) coordinates are returned in order, each with its strength; the stored count is reset to 0; the result says whether any point was returned |
| Gt911.GetXyConsumes | examples/esp-idf/07_display_bmp/components/touch/gt911.c:315-316 | A second `get_xy` without a new read returns no points |
| Gt911.ReadThenGetXy | examples/esp-idf/07_display_bmp/components/touch/gt911.c:277-307 | After a successful point read, `get_xy` returns the decoded coordinates of the touched points, up to both limits |
| Gt911.GetButtonStateAsWritten | examples/esp-idf/07_display_bmp/components/touch/gt911.c:324-343 | As written, only an index above the count is refused, so the index equal to the count passes the guard |
| Gt911.ButtonGuardOffByOne | examples/esp-idf/07_display_bmp/components/touch/gt911.c:334-337 | With 4 button slots, a key frame stores 4 buttons and index 4 passes the guard and reads past the last slot |
| Gt911.ButtonGuardReadsUnwrittenSlot | examples/esp-idf/07_display_bmp/components/touch/gt911.c:232-247 | With 5 button slots, a key frame stores 4 buttons, and index 4 passes the guard and returns slot 4, which no key frame writes |
| Gt911.GetButtonState | examples/esp-idf/07_display_bmp/components/touch/gt911.c:334-337 | Corrected guard: an index is answered exactly when it is below the count, with that button's state |
| Gt911.ButtonGuardsAgree | examples/esp-idf/07_display_bmp/components/touch/gt911.c:334 | The two guards differ only at the index equal to the count |
| Gt911.EnterSleep | examples/esp-idf/07_display_bmp/components/touch/gt911.c:178-184 | Writes 0x05 to the sleep register, and succeeds exactly when the write does |
| Gt911.AddressSelectLevel | examples/esp-idf/07_display_bmp/components/touch/gt911.c:121-130 | The INT line is driven high only for the backup address; any address other than the two known ones is flagged |
| Net.Htons | examples/esp-idf/14_udp_tcp_ntp/components/net/src/net.c:117 | The network-order port has the two bytes of the host port swapped |
| Net.HtonsInvolution | examples/esp-idf/14_udp_tcp_ntp/components/net/src/net.c:117 | Swapping twice gives the port back |
| Net.DestAddr | examples/esp-idf/14_udp_tcp_ntp/components/net/src/net.c:111-119 | The destination is IPv4 with the given port; its IP is the learned server's, or the configured server IP when none is learned |
| Net.OnUdpDatagram | examples/esp-idf/14_udp_tcp_ntp/components/net/src/net.c:276-281 | After a datagram the sender is the learned server; a datagram from the already-learned IP changes nothing |
| Net.OnTcpAccept | examples/esp-idf/14_udp_tcp_ntp/components/net/src/net.c:346-348 | An accepted client becomes the learned server and is marked connected; the queues are untouched |
| Net.OnSessionEnd | examples/esp-idf/14_udp_tcp_ntp/components/net/src/net.c:387-389 | Ending a session clears only the connected flag |
| Net.DestAfterDatagram | examples/esp-idf/14_udp_tcp_ntp/components/net/src/net.c:111-119 | After a datagram, sends go to the datagram's source IP on the requested port |
| Net.DatagramIdempotent | examples/esp-idf/14_udp_tcp_ntp/components/net/src/net.c:277-281 | Learning the same source twice is the same as learning it once |
| Net.Truncate | examples/esp-idf/14_udp_tcp_ntp/components/net/src/net.c:463 | The payload is the C string of the message, up to its first NUL, cut to the 255 bytes that fit with the terminating NUL; it holds no NUL; NULL gives the empty string |
| Net.TruncateExamples | examples/esp-idf/14_udp_tcp_ntp/components/net/src/net.c:463 | The copy stops at the first NUL, and a 300-byte message keeps its first 255 bytes |
| Net.Enqueue | examples/esp-idf/14_udp_tcp_ntp/components/net/src/net.c:464 | A send to the 8-entry queue succeeds exactly when the queue is not full, and then appends the item at the end |
| Net.TxqStart | examples/esp-idf/14_udp_tcp_ntp/components/net/src/net.c:53-56 | The TCP queue is created once; an existing queue is kept |
| Net.AppSendTcp | examples/esp-idf/14_udp_tcp_ntp/components/net/src/net.c:450-465 | A message is queued exactly when the queue exists and a client is connected, and then it is appended truncated; the rest of the state is unchanged |
| Net.WorkerStart | examples/esp-idf/14_udp_tcp_ntp/components/net/src/net.c:183-193 | The work queue is created once, and the worker runs exactly when the queue exists |
| Net.AppSendUdp | examples/esp-idf/14_udp_tcp_ntp/components/net/src/net.c:467-477 | A UDP work item holding the truncated message is queued exactly when the work queue exists and has room; a UDP send never waits for a client |
| Net.AppSendUdpOnlyUdp | examples/esp-idf/14_udp_tcp_ntp/components/net/src/net.c:474 | A work queue fed only by `app_send_udp` holds only UDP items |
| Net.NoClientNoTcpTraffic | examples/esp-idf/14_udp_tcp_ntp/components/net/src/net.c:457-460 | Without a connected client nothing is queued for TCP |
| Net.TimeoutSplit | examples/esp-idf/14_udp_tcp_ntp/components/net/src/net.c:85-88 | Seconds and microseconds add up to the timeout again, with C truncation for negative timeouts |
| Net.SetNonblocking | examples/esp-idf/14_udp_tcp_ntp/components/net/src/net.c:58-63 | A failed flag read gives -1; otherwise the result of the flag write |
| Net.ConnectWithTimeout | examples/esp-idf/14_udp_tcp_ntp/components/net/src/net.c:65-109 | Gives 0 exactly when the socket went non-blocking and the connect completed, at once or within the timeout with no socket error, and the socket was set back to blocking; a select timeout sets ETIMEDOUT and a socket error sets errno to that error |
| Net.DoSendTcp | examples/esp-idf/14_udp_tcp_ntp/components/net/src/net.c:121-148 | The payload is sent exactly when Wi-Fi is up, the socket opens, the connect succeeds and the send succeeds; it goes to the TCP destination |
| Net.DoSendUdp | examples/esp-idf/14_udp_tcp_ntp/components/net/src/net.c:150-170 | The payload is sent exactly when Wi-Fi is up, the socket opens and `sendto` succeeds; it goes to the UDP destination |
| Net.Dispatch | examples/esp-idf/14_udp_tcp_ntp/components/net/src/net.c:179 | Each work item goes out on its own protocol's port with its own payload |
| Net.RunWorker | examples/esp-idf/14_udp_tcp_ntp/components/net/src/net.c:172-181 | The worker handles the items in queue order, one report each |
| Net.RecvKeepsSession | examples/esp-idf/14_udp_tcp_ntp/components/net/src/net.c:364-384 | A closed peer ends the session; EAGAIN or EWOULDBLOCK keeps it; received data keeps it exactly when the echo succeeds |
| Net.SessionStep | examples/esp-idf/14_udp_tcp_ntp/components/net/src/net.c:351-385 | At most 4 queued payloads go out, in order; a failed send ends the session before receiving; otherwise the receive outcome decides |
| GuiBmp.Rgb | examples/esp-idf/14_udp_tcp_ntp/components/gui_paint/gui_bmp.h:25 | Red, green and blue keep their top 5, 6 and 5 bits, in that field order |
| GuiBmp.RgbRoundTrip | examples/esp-idf/14_udp_tcp_ntp/components/gui_paint/gui_bmp.h:25 | Every RGB565 colour is what the macro makes of its own expanded channels |
| GuiBmp.RgbIgnoresLowBits | examples/esp-idf/14_udp_tcp_ntp/components/gui_paint/gui_bmp.h:25 | Channel bits below the kept ones do not change the colour |
| GuiBmp.RgbExtremes | examples/esp-idf/14_udp_tcp_ntp/components/gui_paint/gui_bmp.h:25 | White is 0xFFFF and black is 0 |
| GuiBmp.ParseHeader | examples/esp-idf/14_udp_tcp_ntp/components/gui_paint/gui_bmp.h:29-50 | The fields used are read little-endian at their offsets in the packed headers |
| GuiBmp.RowBytesPadding | examples/esp-idf/13_lvgl_codec/components/gui_paint/gui_bmp.c:111 | Without 32-bit overflow, a row's byte count is its bits rounded up to a multiple of 32 bits |
| GuiBmp.Xrgb1555To565 | examples/esp-idf/13_lvgl_codec/components/gui_paint/gui_bmp.c:45-48 | Red and blue keep their 5 bits; green is stretched from 5 to 6 bits by `*63/31` |
| GuiBmp.ExtractPixelColor | examples/esp-idf/13_lvgl_codec/components/gui_paint/gui_bmp.c:17-75 | The colour for each bit depth: 1-bit white or black from its bit, 16-bit as RGB565 or converted from XRGB1555, 24- and 32-bit through `RGB` from the B,G,R bytes; unsupported depths give black |
| GuiBmp.PaletteImagesBlack | examples/esp-idf/13_lvgl_codec/components/gui_paint/gui_bmp.c:19-40 | Every 4- and 8-bit pixel comes out black, because the palette is never loaded |
| GuiBmp.AlphaIgnored | examples/esp-idf/13_lvgl_codec/components/gui_paint/gui_bmp.c:60-67 | A 32-bit pixel's fourth byte has no effect on its colour |
| GuiBmp.TrueColourRoundTrip | examples/esp-idf/13_lvgl_codec/components/gui_paint/gui_bmp.c:52-58 | A 24-bit pixel holding an RGB565 colour's expanded channels decodes to that colour |
| GuiBmp.ScreenX | examples/esp-idf/13_lvgl_codec/components/gui_paint/gui_bmp.c:123 | The column is offset by the start x, as a 16-bit value |
| GuiBmp.RowsFlip | examples/esp-idf/13_lvgl_codec/components/gui_paint/gui_bmp.c:116-125 | File rows are stored bottom-up: the last file row is drawn at the start y, and distinct rows land on distinct lines |
| GuiBmp.DrawImage | examples/esp-idf/13_lvgl_codec/components/gui_paint/gui_bmp.c:116-125 | One pixel is set per file pixel, at its flipped screen position, with its extracted colour |
| GuiBmp.ReadBmp | examples/esp-idf/13_lvgl_codec/components/gui_paint/gui_bmp.c:78-129 | Returns 1 and draws the whole image exactly when the file opens and the file buffer is allocated; otherwise returns 0 and draws nothing |
| LcdPort.ClipAsWritten | examples/esp-idf/04_isolation_io/components/rgb_lcd_port/rgb_lcd_port.c:119-125 | As written: a negative start is raised to 0 and then the end is left as it is; the end is cut only when the start was not negative |
| LcdPort.ClipAsWrittenOverhangs | examples/esp-idf/04_isolation_io/components/rgb_lcd_port/rgb_lcd_port.c:120-121 | A window from x = -10 to 900 becomes 0 to 900: 900 pixels wide on the 800-pixel screen |
| LcdPort.Clip | examples/esp-idf/04_isolation_io/components/rgb_lcd_port/rgb_lcd_port.c:119-125 | Corrected clipping: the window lies on the screen, with each start raised to 0 and each end cut to the screen, independently |
| LcdPort.ClipAgreement | examples/esp-idf/04_isolation_io/components/rgb_lcd_port/rgb_lcd_port.c:119-125 | The two clippings agree exactly when, on each axis, the start is not negative or the end is already on screen |
| LcdPort.ClipIdempotent | examples/esp-idf/04_isolation_io/components/rgb_lcd_port/rgb_lcd_port.c:119-125 | Clipping a clipped window changes nothing |
| LcdPort.CropRow | examples/esp-idf/04_isolation_io/components/rgb_lcd_port/rgb_lcd_port.c:139-146 | Row k of the crop sits at k times the row length and is row k of the window in the frame |
| LcdPort.CropRows | examples/esp-idf/04_isolation_io/components/rgb_lcd_port/rgb_lcd_port.c:138-146 | The copy loop produces every row of the window, in order, and nothing else |
| LcdPort.WindowDraw | examples/esp-idf/04_isolation_io/components/rgb_lcd_port/rgb_lcd_port.c:128-151 | The draw of a window whose rows stay inside the frame: its size is the window's, and each byte of pixel (x, y) is the frame's byte at row-major index ((ys + y) * 800 + xs + x) * 2 |
| LcdPort.CropPixels | examples/esp-idf/04_isolation_io/components/rgb_lcd_port/rgb_lcd_port.c:138-146 | Every byte of every pixel of the copied rows comes from the frame at its row-major index |
| LcdPort.DisplayWindowAsWritten | examples/esp-idf/04_isolation_io/components/rgb_lcd_port/rgb_lcd_port.c:117-154 | As written: nothing is drawn when `malloc` fails; the window is clipped with the as-written clip; when the loop copies bytes and some row lies past the frame's end (or the width is negative) the read is outside the frame; otherwise every pixel is read row-major from the frame, so a window wider than the screen reads into the next screen row |
| LcdPort.AsWrittenRowsWrap | examples/esp-idf/04_isolation_io/components/rgb_lcd_port/rgb_lcd_port.c:120-151 | The window x -10 to 900, rows 0 to 100, is drawn 900 wide at (0, 0), and its pixel 800 of row 0 is the frame's first pixel of row 1 |
| LcdPort.AsWrittenReadsPastFrame | examples/esp-idf/04_isolation_io/components/rgb_lcd_port/rgb_lcd_port.c:120-146 | The window x -10 to 900, rows 470 to 480, reads outside the frame: its last row ends at byte 768200 of 768000 |
| LcdPort.DisplayWindow | examples/esp-idf/04_isolation_io/components/rgb_lcd_port/rgb_lcd_port.c:117-154 | Corrected clipping: a draw happens exactly when the buffer is allocated; it is placed at the clipped window, and every byte of every pixel is the frame's byte at the same screen position |
| LcdPort.DisplayWindowsAgree | examples/esp-idf/04_isolation_io/components/rgb_lcd_port/rgb_lcd_port.c:119-154 | When no end overhangs after a negative start, the code as written draws exactly what the corrected version draws |
| LcdPort.FullCropIsFrame | examples/esp-idf/04_isolation_io/components/rgb_lcd_port/rgb_lcd_port.c:138-146 | Cropping the whole screen gives the frame unchanged |
| LcdPort.Display | examples/esp-idf/04_isolation_io/components/rgb_lcd_port/rgb_lcd_port.c:165-169 | The full-screen draw is the draw the window function makes for the whole screen |
| LcdPort.BacklightOn | examples/esp-idf/04_isolation_io/components/rgb_lcd_port/rgb_lcd_port.c:185-188 | Expander line 2 goes high and the other lines keep their levels |
| LcdPort.BacklightOff | examples/esp-idf/04_isolation_io/components/rgb_lcd_port/rgb_lcd_port.c:200-203 | Expander line 2 goes low and the other lines keep their levels |
| LcdPort.BacklightToggle | examples/esp-idf/04_isolation_io/components/rgb_lcd_port/rgb_lcd_port.c:185-203 | With the backlight on, switching it off and on again restores the expander state exactly |
| SdCapacity.ClustersToKb | examples/esp-idf/06_touch/components/sd/sd.c:123-128 | Clusters times sectors per cluster times sector size, divided by 1024; the result is kept in 32 bits |
| SdCapacity.DataClusters | examples/esp-idf/06_touch/components/sd/sd.c:123 | The data cluster count is the FAT entry count minus the two reserved entries |
| SdCapacity.FatfsCapacity | examples/esp-idf/06_touch/components/sd/sd.c:111-141 | Success exactly when the free count is obtained; each requested value is filled in, the total from the data clusters and the available from the free clusters |
| SdCapacity.FatfsAvailableAtMostTotal | examples/esp-idf/06_touch/components/sd/sd.c:123-128 | Without overflow the available space never exceeds the total |
| SdCapacity.FatfsTotalWraps | examples/esp-idf/06_touch/components/sd/sd.c:127 | A 4 TiB volume reports a total of 0 KB |
| SdCapacity.ArduinoCapacity | examples/arduino/examples/09_wifi_sta/src/user_sd/user_sd.cpp:90-102 | Fails exactly when an output pointer is NULL; otherwise the total is the card size in KB and the available space is total minus used, modulo 2^64 |
| SdCapacity.ArduinoAvailable | examples/arduino/examples/09_wifi_sta/src/user_sd/user_sd.cpp:98-99 | The available space is at most the total when no more is used than the card holds, and wraps above it when more is used |
| SdCapacity.Shown | examples/esp-idf/05_sd/main/main.c:62-71 | The printed number is MB, or GB above 1024 MB, computed from the `int`-cast KB with C division |
| SdCapacity.ShownRoundsDown | examples/esp-idf/05_sd/main/main.c:62-65 | Below 2 TiB the shown number is the capacity rounded down to its unit |
| SdCapacity.ShownThreshold | examples/esp-idf/05_sd/main/main.c:62 | 1024 MB is still printed as 1024 MB; 1025 MB is printed as 1 GB |
| SdCapacity.ShownNegativeFrom2TiB | examples/esp-idf/05_sd/main/main.c:62-65 | From 2^31 KB on, the number printed is zero or negative |
| SdCapacity.SdExampleLines | examples/esp-idf/05_sd/main/main.c:51-81 | A failed init shows only the failure line; otherwise the OK line, the total and the available space |
| SdCapacity.SdExampleSetup | examples/esp-idf/05_sd/main/main.c:23-25 | The set-up writes 0xFF to the mode register, then writes the output register with line 4 (the card's chip select) high: the bus sees exactly these two writes, and the second carries the new shadow |
| FileNames.AsciiLower | examples/esp-idf/07_display_bmp/main/main.c:37 | Upper-case ASCII letters map to lower case and every other character is unchanged |
| FileNames.MatchingMembers | examples/esp-idf/07_display_bmp/main/main.c:37 | The accepted names are exactly those longer than the suffix that end in it, compared case-insensitively |
| FileNames.JoinPath | examples/esp-idf/07_display_bmp/main/main.c:40 | A path is the base, one `/` and the name |
| BmpViewer.ListFiles | examples/esp-idf/07_display_bmp/main/main.c:27-47 | Each accepted name gets its full path in directory order, and the count is their number modulo 256; overflow is reported exactly when there are more than 256 accepted names, and then the 256 paths of the table are kept; a directory that will not open changes nothing |
| BmpViewer.ListFilesExample | examples/esp-idf/07_display_bmp/main/main.c:37 | Upper-case `.BMP` is accepted, while a bare `.bmp` and other extensions are not |
| BmpViewer.StartScreen | examples/esp-idf/07_display_bmp/main/main.c:83-117 | The arrows appear exactly when the card is OK and files were found; the no-file message appears exactly when the card is OK and none were found |
| BmpViewer.FullTableLooksEmpty | examples/esp-idf/07_display_bmp/main/main.c:24 | 256 pictures make the 8-bit count read 0, and the empty-card message is shown |
| BmpViewer.ArrowsDisjoint | examples/esp-idf/07_display_bmp/main/main.c:136-162 | No point lies in both arrow areas |
| BmpViewer.Int8 | examples/esp-idf/07_display_bmp/main/main.c:120 | An `int8_t` store keeps the value modulo 256, in -128..127 |
| BmpViewer.StepAsWritten | examples/esp-idf/07_display_bmp/main/main.c:124-187 | As written: a picture loads exactly when there is one point, it is not the last point that moved the viewer, and it is in an arrow |
| BmpViewer.PreviousWrapsNegative | examples/esp-idf/07_display_bmp/main/main.c:138-144 | With 200 pictures, "previous" from the first picture loads index -57 |
| BmpViewer.NextWrapsNegative | examples/esp-idf/07_display_bmp/main/main.c:164-170 | With 128 pictures, "next" from picture 127 loads index -128 |
| BmpViewer.Step | examples/esp-idf/07_display_bmp/main/main.c:124-187 | Corrected step: the index stays a valid picture; "previous" and "next" move one place around the cycle; the same trigger as written |
| BmpViewer.StepsAgree | examples/esp-idf/07_display_bmp/main/main.c:120-168 | With up to 127 pictures the code as written takes exactly the corrected step |
| BmpViewer.NextThenPrevious | examples/esp-idf/07_display_bmp/main/main.c:136-168 | "Next" followed by "previous" returns to the same picture |
| BmpViewer.SameTouchIgnored | examples/esp-idf/07_display_bmp/main/main.c:130-133 | A reading at the point that last moved the viewer changes nothing |
| MusicLibrary.StripExtension | examples/esp-idf/13_lvgl_codec/main/ui/user_lv_demo_music.c:182-185 | The title followed by the four removed characters is the file name |
| MusicLibrary.ListFiles | examples/esp-idf/13_lvgl_codec/main/ui/user_lv_demo_music.c:163-192 | Each accepted file up to the first failed allocation gets its path and its stripped title in directory order; the count is their number; overflow is reported exactly when there are more than 256 accepted files and the first 256 all allocate, and then the 256 files of the table are kept; a directory that will not open changes nothing |
| MusicLibrary.TakeFiles | examples/esp-idf/13_lvgl_codec/main/ui/user_lv_demo_music.c:168-188 | The scan stops at the first accepted file whose two allocations do not both succeed, or at a 257th accepted file when the table is full; otherwise it takes every accepted file |
| MusicLibrary.Stored | examples/esp-idf/13_lvgl_codec/main/ui/user_lv_demo_music.c:174-185 | The table holds a title for each stored file; the slot of a failed allocation is left as that failure leaves it; later slots are unchanged |
| FileNames.MatchingPrefixOf | examples/esp-idf/13_lvgl_codec/main/ui/user_lv_demo_music.c:171 | The files accepted among the first n entries are a prefix of all accepted files |
| MusicLibrary.GetTitleAsWritten | examples/esp-idf/13_lvgl_codec/main/ui/user_lv_demo_music.c:128-138 | As written: only an id above the count is refused |
| MusicLibrary.TitlePastTheEnd | examples/esp-idf/13_lvgl_codec/main/ui/user_lv_demo_music.c:131 | The id equal to the count is answered with the slot past the last file, which the corrected guard refuses |
| MusicLibrary.GetTitle | examples/esp-idf/13_lvgl_codec/main/ui/user_lv_demo_music.c:128-138 | Corrected guard: a title is returned exactly for the ids of stored files |
| MusicLibrary.GetTitleAgrees | examples/esp-idf/13_lvgl_codec/main/ui/user_lv_demo_music.c:131 | The two guards differ only at the id equal to the count |
| MusicLibrary.TitlesOfScan | examples/esp-idf/13_lvgl_codec/main/ui/user_lv_demo_music.c:128-185 | After a scan, the title of each id is its file name without the extension, and there is no title past the last file |
| MusicLibrary.Artists | examples/esp-idf/13_lvgl_codec/main/ui/user_lv_demo_music.c:59-75 | The artist table has 15 entries |
| MusicLibrary.Genres | examples/esp-idf/13_lvgl_codec/main/ui/user_lv_demo_music.c:77-92 | The genre table has 14 entries |
| MusicLibrary.Durations | examples/esp-idf/13_lvgl_codec/main/ui/user_lv_demo_music.c:94-109 | The length table has 14 minute-and-second entries, each with fewer than 60 seconds |
| MusicLibrary.GetArtist | examples/esp-idf/13_lvgl_codec/main/ui/user_lv_demo_music.c:140-144 | An artist is returned exactly for ids inside the table |
| MusicLibrary.GetGenre | examples/esp-idf/13_lvgl_codec/main/ui/user_lv_demo_music.c:146-150 | A genre is returned exactly for ids inside the table |
| MusicLibrary.GetTrackLength | examples/esp-idf/13_lvgl_codec/main/ui/user_lv_demo_music.c:152-156 | Inside the table a track's length is its minutes times 60 plus its seconds; past it the length is 0 |
| MusicLibrary.TablesAgree | examples/esp-idf/13_lvgl_codec/main/ui/user_lv_demo_music.c:59-156 | Ids 0..13 have an artist, a genre and a length of 35 to 213 seconds; id 14 has an artist but no genre and length 0 |
| MusicLibrary.TrackLengthExamples | examples/esp-idf/13_lvgl_codec/main/ui/user_lv_demo_music.c:94-156 | The first track lasts 60 seconds, the second 35 and the sixth 213 |
| Bytes.CText | examples/esp-idf/08_wifi_scan/main/main.c:29 | The C string is the longest NUL-free prefix of the buffer |
| WifiScanView.HighBitIsNonAscii | examples/esp-idf/08_wifi_scan/main/main.c:30 | A byte has its high bit set exactly when it is 0x80 or above |
| WifiScanView.ContainsNonAscii | examples/esp-idf/08_wifi_scan/main/main.c:28-36 | True exactly when some byte before the NUL has its high bit set |
| WifiScanView.ContainsNonAsciiExamples | examples/arduino/examples/09_wifi_sta/src/user_wifi/wifi_scan.cpp:16-25 | Empty and all-NUL names are plain; a high byte after the NUL does not count |
| WifiScanView.Kept | examples/esp-idf/08_wifi_scan/main/main.c:97-107 | The drawn names are the plain names in scan order |
| WifiScanView.Skipped | examples/esp-idf/08_wifi_scan/main/main.c:80-100 | Skipped and drawn names together are all the names |
| WifiScanView.Layout | examples/esp-idf/08_wifi_scan/main/main.c:97-107 | The k-th drawn name goes on row k, 24 pixels per row, so there are no gaps where names were skipped |
| WifiScanView.RowOfName | examples/esp-idf/08_wifi_scan/main/main.c:105 | `(i - chinese_num) * 24` is the row of name i's place among the drawn names |
| WifiScanView.EspScanScreen | examples/esp-idf/08_wifi_scan/main/main.c:94-110 | All 15 records are laid out, and every row fits on the 480-pixel screen |
| WifiScanView.ArduinoScanScreen | examples/arduino/examples/09_wifi_sta/src/user_wifi/wifi_scan.cpp:28-82 | Nothing is drawn for a scan with no networks or a failed one; otherwise the first 20 networks are laid out and every row fits on the screen |
| WifiScanView.LaterNetworksIgnored | examples/arduino/examples/09_wifi_sta/src/user_wifi/wifi_scan.cpp:70 | Networks past the 20th never affect the screen |
| WifiScanView.SkippedLeavesNoTrace | examples/esp-idf/08_wifi_scan/main/main.c:97-107 | The screen is the same as if the skipped name had not been in the list |
| IsolationTest.Phase | examples/esp-idf/04_isolation_io/main/main.c:57-66 | Both outputs are driven to the given levels and the other lines are kept; the half passes exactly when each input reads its output's level |
| IsolationTest.Round | examples/esp-idf/04_isolation_io/main/main.c:57-77 | `DI_flag` reaches 2 exactly when both patterns read back; the round ends with DO0 low and DO1 high |
| IsolationTest.RunTest | examples/esp-idf/04_isolation_io/main/main.c:54-99 | Green exactly when one of the first three rounds passes, stopping at the first that does; otherwise red after three rounds |
| IsolationTest.HalfPassesDoNotAccumulate | examples/esp-idf/04_isolation_io/main/main.c:90-91 | Two half-passing rounds do not add up to a pass, because the flag restarts each round |

## Left out

- Timing: the delays, the RTOS task scheduling and the blocking waits are left out, because time is not part of any modelled result. The ten-millisecond settling waits of the DI/DO test, the 30-millisecond touch poll and the TCP receive back-off are among them.
- Peripheral drivers below the modelled calls: the ESP-IDF and Arduino I2C controller drivers, the RGB panel driver and `esp_lcd_panel_draw_bitmap` itself, the SDMMC/FatFs mount and unmount, and the Wi-Fi driver, because they are vendor code.
- `IoExtension.PwmOutput`: the floating-point scaling `Value * (255 / 100.0)`, truncated to a `uint8_t`, is a function parameter, because floating point is not modelled.
- The `Paint_*` drawing library and LVGL: the models stop at the pixels, strings and rows they hand over.
- `net.c` socket setup and tasks: `event_handler`, `wifi_init_sta`, SNTP, and the UDP and TCP server tasks' socket creation, bind, listen and accept calls are left out. Their effects on the modelled state are the event functions (`Net.OnUdpDatagram`, `Net.OnTcpAccept`, `Net.OnSessionEnd`), and `errno` is an abstract value.
- Concurrency: the FreeRTOS queues are sequences owned by one caller, so the interleavings of the UDP task, the TCP task and the worker are not modelled.
- `Net.WorkerStart`: a failed `xTaskCreate` is not modelled, so the worker runs exactly when the queue exists.
- GT911 initialisation beyond the address strap: the reset pulse timing, GPIO set-up and the product-ID read are left out, because they are GPIO and delays. `touch_gt911_read_point` is the composition of `Gt911.ReadData` and `Gt911.GetXy`.
- `IO_EXTENSION_IO_Mode(DI0 | DI5)` in the DI/DO example: it writes the mode register and changes no modelled state.
- `LcdPort.DisplayWindow`: this is the corrected version, and the clipped window must not be inverted. An inverted window hands negative sizes to `malloc` and the panel driver, and neither is modelled. The code as written is `LcdPort.DisplayWindowAsWritten`, which takes any window.
- `LcdPort.DisplayWindowAsWritten`: a read outside the frame is undefined behaviour in C, so the model only reports it and gives no draw. When the loop copies nothing, the draw is given no bytes, whatever the uninitialised buffer holds.
- Serial printing, `ui_log` and the Arduino serial network table are left out, because they are output only.
- Heap: each checked `malloc` is a success flag, and `free` and `closedir` are left out. `BmpViewer.ListFiles` has no flag: the picture viewer does not check its path allocation, so the model assumes it succeeds.
- `BmpViewer.ListFiles`: past 256 accepted names the C code stores a path one past the end of its table, which is undefined behaviour; the model reports `overflow` and promises nothing beyond the 256 paths already stored.
- `MusicLibrary.ListFiles`: past 256 accepted files the C code stores two buffers one past the end of both tables, which is undefined behaviour; the model reports `overflow` and promises nothing beyond the 256 files already stored.
- `GuiBmp.ReadBmp`: the model requires the two headers and every pixel row to lie inside the file. The C code reads the file into a buffer of its size without checking either, so a shorter file is read out of bounds, which is undefined behaviour and is not modelled.
- `GuiBmp.DrawImage`: the same requirement as `GuiBmp.ReadBmp`, for the same reason.

## Findings

| source | as written | input that shows it | evidently intended | confidence | as-written member | corrected member |
|---|---|---|---|---|---|---|
| examples/esp-idf/07_display_bmp/components/touch/gt911.c:334 | `get_button_state` refuses only `n > buttons` | 4 button slots: a key frame with status 0x90 stores 4 buttons, then `n = 4` reads past the array; with 5 slots the same `n = 4` returns slot 4, which no key frame writes | refuse `n >= buttons` | not executed | Gt911.ButtonGuardOffByOne | Gt911.GetButtonState |
| examples/esp-idf/04_isolation_io/components/rgb_lcd_port/rgb_lcd_port.c:120-121 | the end is clipped only in the `else` of the negative-start test | window x from -10 to 900 gives a 900-pixel crop on an 800-pixel screen; each of its rows runs on into the next screen row, and on rows 470 to 480 the last row's copy ends at byte 768200 of the 768000-byte frame | clip the start and the end independently | not executed | LcdPort.AsWrittenReadsPastFrame | LcdPort.DisplayWindow |
| examples/esp-idf/07_display_bmp/main/main.c:120 | the picture index is an `int8_t` against a `uint8_t` count | 200 pictures, "previous" at picture 0 loads index -57; 128 pictures, "next" at 127 loads -128 | an index that covers the whole 256-slot table | not executed | BmpViewer.PreviousWrapsNegative | BmpViewer.Step |
| examples/esp-idf/13_lvgl_codec/main/ui/user_lv_demo_music.c:131 | `get_title` refuses only `track_id > mp3_num` | `track_id == mp3_num` returns the slot past the last file, which is NULL or a failed-allocation leftover | refuse `track_id >= mp3_num` | not executed | MusicLibrary.TitlePastTheEnd | MusicLibrary.GetTitle |
