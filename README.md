# Freaky E-Stops (Raspberry Pi) in Dafny

This is a model of the logic in `freaky_estop_rpi.c`, the Raspberry Pi firmware for a field
emergency stop. It covers:

- the e-stop latch and the status LED it drives;
- the tiny HTTP service: request-line and body extraction, routing, the `/setup` page's pre-filled
  form, and the `/setConfig` update with its form-body decoder `parse_query_params`;
- the settings file written by `save_settings` and read back by `load_settings`.

Modules, one per file:

| file | module | models |
|---|---|---|
| `wrappers.dfy` | `Wrappers` | `Option` |
| `cstrings.dfy` | `CStrings` | the C library calls the code relies on: `strchr`, `strstr`, `strncpy` into a bounded buffer, `isspace`, `atoi`, `%d`, and C strings as the text before the first NUL |
| `formdecode.dfy` | `FormDecode` | `parse_query_params` as a method with its `strtok` loop, proved against the function `Decode` |
| `http.dfy` | `Http` | the `sscanf("%s %s %s")` request line, the body after the first `\r\n\r\n` of a POST, and the route chain |
| `settings.dfy` | `Settings` | the configuration record, the five lines `save_settings` writes, the `%[^=]=%[^\n]` line rule of `load_settings` and the save/load round trip |
| `latch.dfy` | `Latch` | the tripped flag and LED as a state machine, plus a class whose methods are the interrupt, the blink cycle and cleanup |
| `freakyestop.dfy` | `FreakyEstop` | the configuration globals as the class `ConfigStore` (`load_settings`, the `/setConfig` update, one pass of the server loop), the setup form flags and the responses |

Numbers are unbounded in Dafny. The places where C widths matter are these:
- C-string buffer capacities are stated as preconditions: `RequestFits` and `LineFits`.
- `useDHCP` is kept within a 32-bit `int` (`Fits`).
- `atoi` is modelled only on values that do not overflow.

The settings file is modelled as its sequence of lines, without their newlines. A request is
modelled as the text the 4096-byte buffer holds. A response is the status and the page chosen,
not the HTML text.

Some behaviours of the code that the model keeps as they are:
- Any non-empty colour is stored; it is not checked against Red, Blue and Field
  (`ColourNotValidated`).
- A key absent from a `/setConfig` body does not leave its field alone: the field receives
  whatever the shared value buffer still holds; see "Findings".
- There are no locks around the configuration globals.
- A failed save is ignored.

## Model

| member | source | states |
|---|---|---|
| `CStrings.IndexOf` | freaky_estop_rpi.c:166 | strchr: the result is at most the length; no earlier position holds the character; the result holds it unless the character is absent |
| `CStrings.CStr` | freaky_estop_rpi.c:245 | the C string a buffer holds is the text before its first NUL: a NUL-free prefix followed by a NUL or the end of the buffer |
| `CStrings.Truncate` | freaky_estop_rpi.c:170-171 | strncpy into n+1 characters keeps a prefix of at most n characters: all of a source that fits, exactly n of a longer one |
| `CStrings.TruncateTwice` | freaky_estop_rpi.c:338 | copying a 31-character value into a smaller buffer gives the same as copying the original |
| `CStrings.FindSub` | freaky_estop_rpi.c:245 | strstr: a found position is a match with no earlier match; nothing is found exactly when the pattern occurs nowhere |
| `CStrings.ContainsIff` | freaky_estop_rpi.c:342 | `strstr(s, p) != NULL` exactly when p occurs at some position of s |
| `CStrings.Atoi` | freaky_estop_rpi.c:135 | atoi skips leading whitespace, reads one optional sign and the leading digits; what it reads back is stated by `CStrings.AtoiDecimal` |
| `CStrings.Decimal` | freaky_estop_rpi.c:154 | `%d` writes a non-empty text starting with a digit or `-`; its length and characters are stated by `CStrings.DecimalInt32Length` and `CStrings.DecimalNoNul` |
| `CStrings.AtoiDecimal` | freaky_estop_rpi.c:135 | atoi reads back exactly the number `%d` printed, negative numbers included |
| `CStrings.DecimalInt32Length` | freaky_estop_rpi.c:154 | a 32-bit int prints in at most 11 characters |
| `CStrings.DecimalNoNul` | freaky_estop_rpi.c:154 | a printed number holds no NUL, newline or `=` |
| `FormDecode.Tokens` | freaky_estop_rpi.c:163-175 | the strtok tokens on `&` are non-empty and hold no `&` |
| `FormDecode.FirstMatch` | freaky_estop_rpi.c:164-175 | the value after the first `=` of the first token whose key is exactly the one sought; stated both ways by `FormDecode.FirstMatchSome` and `FormDecode.FirstMatchNone` |
| `FormDecode.Decode` | freaky_estop_rpi.c:160-179 | the first match among the body's `&`-tokens, before truncation; stated by `FormDecode.DecodeSpec` |
| `FormDecode.ParseQueryParams` | freaky_estop_rpi.c:160-179 | when some token has the key, the buffer ends up holding the first such token's value cut to size-1 characters; otherwise the buffer keeps exactly what it held |
| `FormDecode.FirstMatchSome` | freaky_estop_rpi.c:164-175 | the decoded value is v exactly when some token has the exact key and value v and no earlier token has the key (both directions) |
| `FormDecode.FirstMatchNone` | freaky_estop_rpi.c:165-176 | nothing is decoded exactly when no token has the key; tokens without `=` never match |
| `FormDecode.DecodeSpec` | freaky_estop_rpi.c:160-179 | the two characterisations above on the tokens of a whole body |
| `FormDecode.TokensJoin` | freaky_estop_rpi.c:163-175 | strtok splitting recovers any list of non-empty, `&`-free tokens joined with `&` |
| `FormDecode.TokensSplit` | freaky_estop_rpi.c:163-175 | splitting at an `&` gives the tokens of the text before it followed by those of the text after it |
| `FormDecode.EmptyTokensCollapse` | freaky_estop_rpi.c:163-175 | a leading, a trailing or a doubled `&` changes no token |
| `FormDecode.DecodeEncodeForm` | freaky_estop_rpi.c:160-179 | decoding a body assembled from key/value pairs yields the first value given for the key, or nothing |
| `FormDecode.DecodeAvoids` | freaky_estop_rpi.c:170 | a decoded value is a piece of the body: it lacks any character the body lacks |
| `FormDecode.DecodeExamples` | freaky_estop_rpi.c:160-179 | `color` in `color=Blue&dhcp=on` is `Blue`; `dhcp` in `color=Blue` is absent |
| `FormDecode.FieldPortDecodes` | freaky_estop_rpi.c:314-336 | in `color=Field&arenaPort=9000`, `color` is `Field`, `arenaPort` is `9000`, and `ip` and `arenaIP` are absent |
| `FormDecode.FieldPortNoDhcp` | freaky_estop_rpi.c:342 | `color=Field&arenaPort=9000` holds no `dhcp=` |
| `Http.ParseRequest` | freaky_estop_rpi.c:240-249 | method, path and protocol are the first three whitespace-separated words (empty when missing); a body exists exactly when the method is `POST` and `\r\n\r\n` occurs; it is the text after the first occurrence |
| `Http.Words` | freaky_estop_rpi.c:240 | the whitespace-separated words `%s` reads, each non-empty and without whitespace; what a request line yields is stated by `Http.RequestLineWords` and `Http.ParseFrame` |
| `Http.RouteOf` | freaky_estop_rpi.c:252-359 | `/` gives home and `/setup` gives setup, for any method; `/setConfig` gives the update only for a POST with a body, which it carries; all else is not found |
| `Http.StatusOf` | freaky_estop_rpi.c:256-363 | the status is 404 exactly for the not-found route, 200 otherwise |
| `Http.ParseFrame` | freaky_estop_rpi.c:240-249 | a request framed as request line, header lines, blank line and NUL-free body parses back to its method, path and protocol, with the body exactly for POST |
| `Http.RouteFrame` | freaky_estop_rpi.c:252-359 | the route such a framed request gets, by its path and method |
| `Http.ParseSampleUpdate` | freaky_estop_rpi.c:240-249 | `POST /setConfig HTTP/1.1\r\nHost: x\r\n\r\ncolor=Red` parses to POST, `/setConfig` and body `color=Red`, and gets the update route |
| `Settings.Defaults` | freaky_estop_rpi.c:21-25 | the initialisers fit their buffers |
| `Settings.SaveLines` | freaky_estop_rpi.c:150-154 | save_settings writes five lines, one per setting; what they mean when read back is stated by `Settings.SaveLoadRoundTrip` |
| `Settings.ScanLine` | freaky_estop_rpi.c:125 | a successful scan gives a non-empty key without `=` and a non-empty value without newline, and `key=value` begins the line; where the value stops and when the scan fails is stated by `Settings.ScanLineSpec` |
| `Settings.ScanLineSpec` | freaky_estop_rpi.c:125 | the key is the text before the first `=`, the value runs from there to the first newline or the end, and the scan fails exactly when there is no `=`, the `=` comes first, or nothing but a newline (or nothing) follows the first `=` |
| `Settings.Assign` | freaky_estop_rpi.c:126-136 | the key chain: a known key sets its field, cut to its buffer, or useDHCP by atoi; what this restores is stated by `Settings.SaveLoadRoundTrip`, and `Settings.ApplyLineIgnored` states that an unknown key changes nothing |
| `Settings.ApplyLine` | freaky_estop_rpi.c:125-136 | one loop pass: a scanned line is dispatched on its key, a failed scan changes nothing; stated by `Settings.ApplyLineIgnored`, `Settings.ApplyLineFits` and `Settings.ApplyLineNonEmpty` |
| `Settings.ApplyLines` | freaky_estop_rpi.c:124-138 | the lines applied in file order; stated by `Settings.IgnoredLineDropped` and `Settings.SaveLoadRoundTrip` |
| `Settings.ApplyLineFits` | freaky_estop_rpi.c:124-136 | a line within the buffers keeps every field within its buffer |
| `Settings.ApplyLineIgnored` | freaky_estop_rpi.c:125-136 | a line that fails the scan, or has an unknown key, changes nothing |
| `Settings.IgnoredLineDropped` | freaky_estop_rpi.c:124-137 | such a line can be removed from anywhere in the file without changing what is loaded |
| `Settings.ScanKeyValue` | freaky_estop_rpi.c:125 | scanning a saved `key=value` line gives back the key and value; an empty value fails the scan |
| `Settings.SavedLineFits` | freaky_estop_rpi.c:120-125 | a short saved line fits load_settings' line, key and value buffers |
| `Settings.SaveLinesFit` | freaky_estop_rpi.c:150-154 | all five saved lines fit load_settings' buffers |
| `Settings.SaveLoadRoundTrip` | freaky_estop_rpi.c:124-154 | loading the saved lines restores each non-empty string field and useDHCP; an empty field keeps the value it had before loading |
| `Settings.ReloadIsIdentity` | freaky_estop_rpi.c:124-154 | loading the lines just saved into the same globals changes nothing |
| `Settings.RestartRestores` | freaky_estop_rpi.c:21-25 | from the initialisers, loading the saved file restores the whole configuration when colour, arena IP and port are non-empty |
| `Settings.DefaultsNonEmpty` | freaky_estop_rpi.c:21-25 | the initial colour, arena IP and port are non-empty |
| `Settings.ApplyLineNonEmpty` | freaky_estop_rpi.c:125-136 | a loaded line never empties the colour, the arena IP or the port |
| `Settings.ApplyLinesNonEmpty` | freaky_estop_rpi.c:124-138 | nor does loading a whole file |
| `Latch.Step` | freaky_estop_rpi.c:48-108 | one e-stop edge, blink cycle or cleanup; its effects are stated by `Latch.TrippedIffEdge`, `Latch.TrippedLedHigh` and `Latch.BlinkWhileNormal` |
| `Latch.Run` | freaky_estop_rpi.c:48-111 | the events in order; stated by `Latch.TrippedStaysTripped`, `Latch.WritesOnlyGrow` and `Latch.TrippedIffEdge` |
| `Latch.StepConsistent` | freaky_estop_rpi.c:81-107 | every step keeps the LED level equal to the last level written to the pin |
| `Latch.TrippedStaysTripped` | freaky_estop_rpi.c:48-52 | once set, the flag stays set whatever follows |
| `Latch.WritesOnlyGrow` | freaky_estop_rpi.c:81-107 | no step takes back a pin write |
| `Latch.TrippedIffEdge` | freaky_estop_rpi.c:48-52 | the flag is set exactly when it was set before or some e-stop edge occurred |
| `Latch.TrippedLedHigh` | freaky_estop_rpi.c:97-111 | while tripped and not cleaned up the LED stays high; the only further writes are the high writes of later edges |
| `Latch.BlinkWhileNormal` | freaky_estop_rpi.c:103-108 | an untripped blink cycle writes high then low and leaves the LED low |
| `Latch.EStopMonitor.constructor` | freaky_estop_rpi.c:17 | the flag starts clear and nothing has been written |
| `Latch.EStopMonitor.Write` | freaky_estop_rpi.c:83 | a pin write sets the LED to the level and appends it to the write log, leaving the flag |
| `Latch.EStopMonitor.EStopInterrupt` | freaky_estop_rpi.c:48-52 | sets the flag and drives the LED high |
| `Latch.EStopMonitor.HandleEStop` | freaky_estop_rpi.c:81-90 | drives the LED high and leaves the flag alone |
| `Latch.EStopMonitor.Blink` | freaky_estop_rpi.c:97-111 | one blink cycle: high then low only while the flag is clear, nothing otherwise |
| `Latch.EStopMonitor.CleanupLed` | freaky_estop_rpi.c:92-95 | drives the LED low and leaves the flag alone |
| `FreakyEstop.ApplyForm` | freaky_estop_rpi.c:311-342 | the update as written, with one shared value buffer; stated by `FreakyEstop.ApplyFormPresentKeys`, `FreakyEstop.StaleValueLeaks` and `FreakyEstop.StaleBufferStored` |
| `FreakyEstop.ApplyFormFresh` | freaky_estop_rpi.c:311-342 | the update with the buffer cleared before each decode; stated by `FreakyEstop.ApplyFormFreshSpec` |
| `FreakyEstop.ApplyFormPresentKeys` | freaky_estop_rpi.c:314-342 | as written: a present key with a non-empty value sets its field to at most 31, 31, 31 or 7 characters of it, an empty value leaves it; useDHCP is 1 exactly when `dhcp=` occurs anywhere in the body, 0 otherwise |
| `FreakyEstop.ApplyFormFreshSpec` | freaky_estop_rpi.c:314-342 | corrected update: the same field rule for every field, and an absent key leaves its field unchanged |
| `FreakyEstop.ApplyFormFits` | freaky_estop_rpi.c:316-339 | both updates keep every field within its buffer |
| `FreakyEstop.AsWrittenAgreesWhenAllPresent` | freaky_estop_rpi.c:311-339 | when all four keys are present the as-written and corrected updates agree |
| `FreakyEstop.StaleValueLeaks` | freaky_estop_rpi.c:314-325 | as written: with `color` present and non-empty and `ip` absent, the colour's value is stored as the device IP |
| `FreakyEstop.StaleBufferStored` | freaky_estop_rpi.c:311-339 | as written: a body with no token stores whatever the uninitialised buffer held into all four fields, cut to 7 characters for the port |
| `FreakyEstop.FieldPortAsWritten` | freaky_estop_rpi.c:311-342 | as written: `color=Field&arenaPort=9000` sets colour, arena IP and device IP to `Field`, the port to `9000` and DHCP off |
| `FreakyEstop.FieldPortFresh` | freaky_estop_rpi.c:311-342 | corrected: the same body changes only the colour, the port and DHCP |
| `FreakyEstop.ColourNotValidated` | freaky_estop_rpi.c:314-318 | `color=Purple` is stored: the colour is not checked against Red, Blue and Field |
| `FreakyEstop.UpdateKeepsStorable` | freaky_estop_rpi.c:311-339 | a body without newline or NUL leaves every field free of them |
| `FreakyEstop.SavedUpdateReloads` | freaky_estop_rpi.c:342-345 | what /setConfig saves fits load_settings' buffers and loads back to the updated configuration |
| `FreakyEstop.UpdateNonEmpty` | freaky_estop_rpi.c:316-339 | neither update empties the colour, the arena IP or the port |
| `FreakyEstop.UpdateSurvivesRestart` | freaky_estop_rpi.c:342-345 | after an update and a restart the saved file, loaded over the initialisers, gives back the updated configuration |
| `FreakyEstop.SetupFormOf` | freaky_estop_rpi.c:298-305 | the flags and values the setup page is filled with; stated by `FreakyEstop.SetupFormSpec` |
| `FreakyEstop.SetupFormSpec` | freaky_estop_rpi.c:298-305 | at most one option is selected: the stored colour when it is one of the three, none otherwise; `checked` and ` disabled` appear exactly when useDHCP is non-zero; the inputs show the stored values |
| `FreakyEstop.Respond` | freaky_estop_rpi.c:252-366 | the status and page each route gets; stated by `FreakyEstop.RespondSpec` |
| `FreakyEstop.RespondSpec` | freaky_estop_rpi.c:252-364 | each route is answered with its status; only the not-found route gets the 404 page, only setup the form |
| `FreakyEstop.UnknownPathNotFound` | freaky_estop_rpi.c:359-366 | `GET /nope` is answered 404 with the not-found page |
| `FreakyEstop.ConfigStore.constructor` | freaky_estop_rpi.c:21-25 | the globals start at their initialisers |
| `FreakyEstop.ConfigStore.Startup` | freaky_estop_rpi.c:54-79 | the initialisers, then the settings file loaded over them |
| `FreakyEstop.ConfigStore.LoadSettings` | freaky_estop_rpi.c:114-139 | a missing file changes nothing; otherwise the globals become the line rule applied to every line in order, within their buffers |
| `FreakyEstop.ConfigStore.Store` | freaky_estop_rpi.c:316-339 | each of the four fields is replaced by its cut value when that is non-empty and kept otherwise; useDHCP is untouched; every field stays within its buffer |
| `FreakyEstop.ConfigStore.SetConfig` | freaky_estop_rpi.c:309-342 | the globals become the as-written update of their old values, with the uninitialised buffer's content as given |
| `FreakyEstop.ConfigStore.SetConfigFresh` | freaky_estop_rpi.c:309-342 | the globals become the corrected update of their old values |
| `FreakyEstop.ConfigStore.HandleRequest` | freaky_estop_rpi.c:227-373 | the response is the one the request's route gets from the old configuration; the update route applies the as-written update and saves the five lines of the result; every other route changes nothing and saves nothing |

## Left out

- Sockets (creation, bind, listen, accept, read, write, close): the request is an input string and the response an output value.
- wiringPi setup, pin modes, ISR registration and `delay`: `digitalWrite` is a log of written levels in `Latch.EStopMonitor`.
- Threads, the main loop, the `running` flag and the signal handler: process lifecycle and concurrency.
- The race in which a trip lands between the high and low writes of a blink cycle. Each latch event is one atomic step, so the low write that can switch the LED off after a trip is not modelled.
- File open/close, `printf` and `perror`: the settings file is its sequence of lines, and a file that cannot be opened is `None`.
- A failed `save_settings` is not modelled: `HandleRequest` returns the lines it would write.
- Buffer overflows are preconditions, not behaviour:
  - `%s` into `method[10]`, `path[100]` and `protocol[20]`;
  - a 4096-byte read with no terminator (`RequestFits`);
  - `%[^=]`/`%[^\n]` into `key[50]`/`value[50]` (`LineFits`).
- A settings line too long for `fgets` into `line[100]`: the code does not overflow there. It reads
  the first 99 characters and takes the rest as the next line. `LineFits` excludes that case.
- `ConfigStore.SetConfig` takes what the uninitialised `value[32]` holds as a string parameter (`stale`). A buffer with no terminator at all, which the first `strlen` would read past, is not modelled.
- `atoi` overflow: a `useDHCP` line is required to hold a value within a 32-bit `int`.
- Characters are Dafny `char`s, not bytes; `strtok`, `strstr` and `sscanf` are modelled on the text before the first NUL.
- The HTML text of the pages; `Page` records only which page is sent, and the setup form only its selection, checked and disabled flags and its three values.
- `Settings.SaveLoadRoundTrip`: the round trip covers only values without newline or NUL. A newline in a posted value splits the saved line, and that is not captured.
- The unused `checked` character (line 267) and `freaky_config.h`, which holds only pin and timing constants and has nothing to model.

## Findings

| source | as written | input that shows it | evidently intended | confidence | as-written member | corrected member |
|---|---|---|---|---|---|---|
| freaky_estop_rpi.c:311-339 | the four `parse_query_params` calls share one `value[32]` buffer that is never cleared, so a key absent from the body leaves the previous key's value (or the uninitialised content) in it, and that value is stored | body `color=Field&arenaPort=9000` | absent keys leave their fields unchanged: only the colour, the port and DHCP change | high (not executed) | `FreakyEstop.FieldPortAsWritten` | `FreakyEstop.ApplyFormFreshSpec` |

`FreakyEstop.ApplyForm` and `ConfigStore.SetConfig` are the handler as written, and
`ConfigStore.HandleRequest` uses them, because the server pass models the code.
`FreakyEstop.ApplyFormFresh` and `ConfigStore.SetConfigFresh` clear the buffer before each decode.
`FreakyEstop.FieldPortFresh` shows that, for the same body, only the colour, the port and DHCP
change. `FreakyEstop.AsWrittenAgreesWhenAllPresent` shows that the two updates differ only when
a key is missing.
