/**
 * The configuration service of the e-stop device: the configuration globals
 * as one object, the /setConfig update, the /setup page's pre-filled form,
 * the response each route gets, and load_settings over those globals.
 */
module FreakyEstop {
  import opened Wrappers
  import opened CStrings
  import opened FormDecode
  import opened Http
  import opened Settings

  /** Size of the param[32] and value[32] buffers of the /setConfig handler. */
  const FormBufferSize: nat := 32

  /** What value[32] holds after parse_query_params(body, key, value, 32) when it held `buffer`. */
  function DecodeInto(body: string, key: string, buffer: string): string {
    match Decode(body, key)
    case Some(v) => Truncate(v, FormBufferSize - 1)
    case None => buffer
  }

  /** `if (strlen(value) > 0) strncpy(field, value, size - 1)`. */
  function Updated(field: string, value: string, size: nat): string
    requires size >= 1
  {
    if value == "" then field else Truncate(value, size - 1)
  }

  /** `useDHCP = (strstr(body, "dhcp=") != NULL)`. */
  function DhcpFlag(body: string): int {
    if Contains(body, "dhcp=") then 1 else 0
  }

  /**
   * The /setConfig update as the handler performs it: one value buffer, never
   * cleared, is passed to four decodes in turn, so a key that is absent leaves
   * the previous key's value (or, for the first, whatever `stale` the
   * uninitialised buffer held) in it, and that value is stored.
   */
  function ApplyForm(c: Config, body: string, stale: string): Config {
    var color := DecodeInto(body, "color", stale);
    var ip := DecodeInto(body, "ip", color);
    var arena := DecodeInto(body, "arenaIP", ip);
    var port := DecodeInto(body, "arenaPort", arena);
    Config(
      Updated(c.allianceColor, color, ColorSize),
      Updated(c.arenaIP, arena, ArenaIPSize),
      Updated(c.deviceIP, ip, DeviceIPSize),
      Updated(c.arenaPort, port, ArenaPortSize),
      DhcpFlag(body))
  }

  /** The update with the value buffer emptied before every decode. */
  function ApplyFormFresh(c: Config, body: string): Config {
    Config(
      Updated(c.allianceColor, DecodeInto(body, "color", ""), ColorSize),
      Updated(c.arenaIP, DecodeInto(body, "arenaIP", ""), ArenaIPSize),
      Updated(c.deviceIP, DecodeInto(body, "ip", ""), DeviceIPSize),
      Updated(c.arenaPort, DecodeInto(body, "arenaPort", ""), ArenaPortSize),
      DhcpFlag(body))
  }

  /**
   * The intended field rule: a key present with a non-empty value sets the
   * field to at most size - 1 characters of it; an absent key or an empty
   * value leaves the field as it was.
   */
  predicate FieldRule(before: string, after: string, body: string, key: string, size: nat)
    requires 1 <= size <= FormBufferSize
  {
    match Decode(body, key)
    case Some(v) => after == if v != "" then Truncate(v, size - 1) else before
    case None => after == before
  }

  /** A present key, or an empty buffer, gives the intended field rule. */
  lemma DecodedField(before: string, body: string, key: string, size: nat, buffer: string)
    requires 1 <= size <= FormBufferSize
    requires Decode(body, key).Some? || buffer == ""
    ensures FieldRule(before, Updated(before, DecodeInto(body, key, buffer), size), body, key, size)
  {
    if Decode(body, key).Some? {
      var v := Decode(body, key).value;
      TruncateTwice(v, FormBufferSize - 1, size - 1);
    }
  }

  /** The corrected update keeps the intended rule for every field, and DHCP follows `dhcp=`. */
  lemma ApplyFormFreshSpec(c: Config, body: string)
    ensures FieldRule(c.allianceColor, ApplyFormFresh(c, body).allianceColor, body, "color", ColorSize)
    ensures FieldRule(c.deviceIP, ApplyFormFresh(c, body).deviceIP, body, "ip", DeviceIPSize)
    ensures FieldRule(c.arenaIP, ApplyFormFresh(c, body).arenaIP, body, "arenaIP", ArenaIPSize)
    ensures FieldRule(c.arenaPort, ApplyFormFresh(c, body).arenaPort, body, "arenaPort", ArenaPortSize)
    ensures ApplyFormFresh(c, body).useDHCP == 1 <==> exists j :: 0 <= j <= |body| && MatchAt(body, "dhcp=", j)
    ensures ApplyFormFresh(c, body).useDHCP == 0 <==> forall j :: 0 <= j <= |body| ==> !MatchAt(body, "dhcp=", j)
  {
    DecodedField(c.allianceColor, body, "color", ColorSize, "");
    DecodedField(c.deviceIP, body, "ip", DeviceIPSize, "");
    DecodedField(c.arenaIP, body, "arenaIP", ArenaIPSize, "");
    DecodedField(c.arenaPort, body, "arenaPort", ArenaPortSize, "");
    ContainsIff(body, "dhcp=");
  }

  /**
   * As written, a key that is present still follows the intended rule, and
   * DHCP follows `dhcp=` anywhere in the body, whatever its value.
   */
  lemma ApplyFormPresentKeys(c: Config, body: string, stale: string)
    ensures Decode(body, "color").Some? ==>
      FieldRule(c.allianceColor, ApplyForm(c, body, stale).allianceColor, body, "color", ColorSize)
    ensures Decode(body, "ip").Some? ==>
      FieldRule(c.deviceIP, ApplyForm(c, body, stale).deviceIP, body, "ip", DeviceIPSize)
    ensures Decode(body, "arenaIP").Some? ==>
      FieldRule(c.arenaIP, ApplyForm(c, body, stale).arenaIP, body, "arenaIP", ArenaIPSize)
    ensures Decode(body, "arenaPort").Some? ==>
      FieldRule(c.arenaPort, ApplyForm(c, body, stale).arenaPort, body, "arenaPort", ArenaPortSize)
    ensures ApplyForm(c, body, stale).useDHCP == 1 <==> exists j :: 0 <= j <= |body| && MatchAt(body, "dhcp=", j)
    ensures ApplyForm(c, body, stale).useDHCP == 0 <==> forall j :: 0 <= j <= |body| ==> !MatchAt(body, "dhcp=", j)
  {
    var color := DecodeInto(body, "color", stale);
    var ip := DecodeInto(body, "ip", color);
    var arena := DecodeInto(body, "arenaIP", ip);
    if Decode(body, "color").Some? {
      DecodedField(c.allianceColor, body, "color", ColorSize, stale);
    }
    if Decode(body, "ip").Some? {
      DecodedField(c.deviceIP, body, "ip", DeviceIPSize, color);
    }
    if Decode(body, "arenaIP").Some? {
      DecodedField(c.arenaIP, body, "arenaIP", ArenaIPSize, ip);
    }
    if Decode(body, "arenaPort").Some? {
      DecodedField(c.arenaPort, body, "arenaPort", ArenaPortSize, arena);
    }
    ContainsIff(body, "dhcp=");
  }

  /** Both updates keep every field within its buffer. */
  lemma ApplyFormFits(c: Config, body: string, stale: string)
    requires Fits(c)
    ensures Fits(ApplyForm(c, body, stale))
    ensures Fits(ApplyFormFresh(c, body))
  {
  }

  /** When every key is present the shared buffer never leaks and the two updates agree. */
  lemma AsWrittenAgreesWhenAllPresent(c: Config, body: string, stale: string)
    requires Decode(body, "color").Some? && Decode(body, "ip").Some?
    requires Decode(body, "arenaIP").Some? && Decode(body, "arenaPort").Some?
    ensures ApplyForm(c, body, stale) == ApplyFormFresh(c, body)
  {
  }

  /** As written: the colour's value is stored as the device IP when `ip` is absent. */
  lemma StaleValueLeaks(c: Config, body: string, stale: string, v: string)
    requires Decode(body, "color") == Some(v) && v != ""
    requires Decode(body, "ip").None?
    ensures ApplyForm(c, body, stale).deviceIP == Truncate(v, DeviceIPSize - 1)
  {
  }

  /** As written: with no key at all, whatever the buffer held is stored in all four fields. */
  lemma StaleBufferStored(c: Config, body: string, stale: string)
    requires stale != "" && |stale| < FormBufferSize
    requires Tokens(body) == []
    ensures ApplyForm(c, body, stale).allianceColor == stale
    ensures ApplyForm(c, body, stale).deviceIP == stale
    ensures ApplyForm(c, body, stale).arenaIP == stale
    ensures ApplyForm(c, body, stale).arenaPort == Truncate(stale, ArenaPortSize - 1)
  {
  }

  /**
   * As written, `color=Field&arenaPort=9000` also overwrites the device IP
   * and the arena IP with "Field", where only the colour and the port were
   * meant to change.
   */
  lemma FieldPortAsWritten(c: Config, stale: string)
    ensures ApplyForm(c, "color=Field&arenaPort=9000", stale) == Config("Field", "Field", "Field", "9000", 0)
  {
    FieldPortDecodes();
    FieldPortNoDhcp();
  }

  /** Corrected: the same body changes only the colour and the port, and turns DHCP off. */
  lemma FieldPortFresh(c: Config)
    ensures ApplyFormFresh(c, "color=Field&arenaPort=9000") ==
      c.(allianceColor := "Field", arenaPort := "9000", useDHCP := 0)
  {
    FieldPortDecodes();
    FieldPortNoDhcp();
  }

  /** The colour is not checked against the three alliance colours: any non-empty value is stored. */
  lemma ColourNotValidated(c: Config, stale: string)
    ensures ApplyFormFresh(c, "color=Purple").allianceColor == "Purple"
    ensures ApplyForm(c, "color=Purple", stale).allianceColor == "Purple"
  {
    PurpleDecodes();
  }

  /** A value that is a piece of a storable body, or of the buffer, is storable. */
  lemma DecodeIntoStorable(body: string, key: string, buffer: string)
    requires Storable(body) && Storable(buffer)
    ensures Storable(DecodeInto(body, key, buffer))
  {
    DecodeAvoids(body, key, '\n');
    DecodeAvoids(body, key, NUL);
  }

  /** A body (and buffer) without newline or NUL keeps every field storable. */
  lemma UpdateKeepsStorable(c: Config, body: string, stale: string)
    requires AllStorable(c) && Storable(body) && Storable(stale)
    ensures AllStorable(ApplyForm(c, body, stale))
    ensures AllStorable(ApplyFormFresh(c, body))
  {
    var color := DecodeInto(body, "color", stale);
    DecodeIntoStorable(body, "color", stale);
    var ip := DecodeInto(body, "ip", color);
    DecodeIntoStorable(body, "ip", color);
    var arena := DecodeInto(body, "arenaIP", ip);
    DecodeIntoStorable(body, "arenaIP", ip);
    DecodeIntoStorable(body, "arenaPort", arena);
    DecodeIntoStorable(body, "color", "");
    DecodeIntoStorable(body, "ip", "");
    DecodeIntoStorable(body, "arenaIP", "");
    DecodeIntoStorable(body, "arenaPort", "");
  }

  /** What /setConfig saves, loaded back into the updated globals, changes nothing. */
  lemma SavedUpdateReloads(c: Config, body: string, stale: string)
    requires Fits(c) && AllStorable(c) && Storable(body) && Storable(stale)
    ensures ApplyLines(ApplyForm(c, body, stale), SaveLines(ApplyForm(c, body, stale))) == ApplyForm(c, body, stale)
    ensures forall i :: 0 <= i < 5 ==> LineFits(SaveLines(ApplyForm(c, body, stale))[i])
  {
    var c1 := ApplyForm(c, body, stale);
    ApplyFormFits(c, body, stale);
    UpdateKeepsStorable(c, body, stale);
    ReloadIsIdentity(c1);
    SaveLinesFit(c1);
  }

  /** An update stores a non-empty value cut to a non-empty one, so it never empties a field. */
  lemma UpdateNonEmpty(c: Config, body: string, stale: string)
    requires NonEmptyFields(c)
    ensures NonEmptyFields(ApplyForm(c, body, stale))
    ensures NonEmptyFields(ApplyFormFresh(c, body))
  {
  }

  /** After /setConfig and a restart, the device comes back with the updated configuration. */
  lemma UpdateSurvivesRestart(c: Config, body: string, stale: string)
    requires Fits(c) && AllStorable(c) && NonEmptyFields(c)
    requires Storable(body) && Storable(stale)
    ensures ApplyLines(Defaults(), SaveLines(ApplyForm(c, body, stale))) == ApplyForm(c, body, stale)
  {
    ApplyFormFits(c, body, stale);
    UpdateKeepsStorable(c, body, stale);
    UpdateNonEmpty(c, body, stale);
    RestartRestores(ApplyForm(c, body, stale));
  }

  // ---- The /setup page ----

  /** What the /setup page's form is pre-filled with. */
  datatype SetupForm = SetupForm(
    redSelected: bool,
    blueSelected: bool,
    fieldSelected: bool,
    dhcpChecked: bool,
    deviceIP: string,
    ipDisabled: bool,
    arenaIP: string,
    arenaPort: string)

  function SetupFormOf(c: Config): SetupForm {
    SetupForm(
      c.allianceColor == "Red",
      c.allianceColor == "Blue",
      c.allianceColor == "Field",
      c.useDHCP != 0,
      c.deviceIP,
      c.useDHCP != 0,
      c.arenaIP,
      c.arenaPort)
  }

  /** The options of the colour selector that are marked selected. */
  function SelectedOptions(f: SetupForm): seq<string> {
    (if f.redSelected then ["Red"] else []) +
    (if f.blueSelected then ["Blue"] else []) +
    (if f.fieldSelected then ["Field"] else [])
  }

  /**
   * At most one option is selected: the stored colour when it is one of the
   * three, none otherwise. The DHCP box is checked, and the device-IP input
   * disabled, exactly when DHCP is on; the text inputs show the stored values.
   */
  lemma SetupFormSpec(c: Config)
    ensures SelectedOptions(SetupFormOf(c)) ==
      if c.allianceColor in ["Red", "Blue", "Field"] then [c.allianceColor] else []
    ensures SetupFormOf(c).dhcpChecked <==> c.useDHCP != 0
    ensures SetupFormOf(c).ipDisabled <==> SetupFormOf(c).dhcpChecked
    ensures SetupFormOf(c).deviceIP == c.deviceIP && SetupFormOf(c).arenaIP == c.arenaIP
    ensures SetupFormOf(c).arenaPort == c.arenaPort
  {
  }

  // ---- Responses ----

  datatype Page = HomePage | SetupPage(form: SetupForm) | UpdatedPage | NotFoundPage

  datatype Response = Response(status: nat, page: Page)

  /** The response a route gets, the /setup page filled from `c`. */
  function Respond(route: Route, c: Config): Response {
    match route
    case Home => Response(200, HomePage)
    case Setup => Response(200, SetupPage(SetupFormOf(c)))
    case UpdateConfig(_) => Response(200, UpdatedPage)
    case NotFound => Response(404, NotFoundPage)
  }

  /** Every route is answered with its status; only an unknown route gets the not-found page. */
  lemma RespondSpec(route: Route, c: Config)
    ensures Respond(route, c).status == StatusOf(route)
    ensures Respond(route, c).page == NotFoundPage <==> route == NotFound
    ensures Respond(route, c).page.SetupPage? <==> route == Setup
  {
  }

  /** `GET /nope` is answered 404 with the not-found page. */
  lemma UnknownPathNotFound(c: Config)
    ensures RequestFits(Frame("GET", "/nope", "HTTP/1.1", [], ""))
    ensures Respond(RouteOf(ParseRequest(Frame("GET", "/nope", "HTTP/1.1", [], ""))), c) ==
      Response(404, NotFoundPage)
  {
    RouteFrame("GET", "/nope", "HTTP/1.1", [], "");
  }

  // ---- The configuration globals ----

  /** allianceColor, arenaIP, deviceIP, arenaPort and useDHCP. */
  class ConfigStore {
    var allianceColor: string
    var arenaIP: string
    var deviceIP: string
    var arenaPort: string
    var useDHCP: int

    function Snapshot(): Config
      reads this
    {
      Config(allianceColor, arenaIP, deviceIP, arenaPort, useDHCP)
    }

    /** Each global fits its buffer. */
    predicate Valid()
      reads this
    {
      Fits(Snapshot())
    }

    /** The static initialisers. */
    constructor ()
      ensures Snapshot() == Defaults()
      ensures Valid()
    {
      allianceColor := "Red";
      arenaIP := "10.0.100.5";
      deviceIP := "";
      arenaPort := "8080";
      useDHCP := 1;
    }

    /** setup(): the initialisers, then load_settings on the settings file. */
    constructor Startup(file: Option<seq<string>>)
      requires file.Some? ==> forall k :: 0 <= k < |file.value| ==> LineFits(file.value[k])
      ensures Valid()
      ensures file.None? ==> Snapshot() == Defaults()
      ensures file.Some? ==> Snapshot() == ApplyLines(Defaults(), file.value)
    {
      allianceColor := "Red";
      arenaIP := "10.0.100.5";
      deviceIP := "";
      arenaPort := "8080";
      useDHCP := 1;
      new;
      LoadSettings(file);
    }

    /**
     * load_settings: `file` is the settings file as its lines, None when it
     * cannot be opened (the globals are left alone).
     */
    method LoadSettings(file: Option<seq<string>>)
      requires Valid()
      requires file.Some? ==> forall k :: 0 <= k < |file.value| ==> LineFits(file.value[k])
      modifies this
      ensures Valid()
      ensures file.None? ==> Snapshot() == old(Snapshot())
      ensures file.Some? ==> Snapshot() == ApplyLines(old(Snapshot()), file.value)
    {
      if file.None? {
        return;
      }
      var lines := file.value;
      var i := 0;
      while i < |lines|
        invariant i <= |lines|
        invariant Valid()
        invariant Snapshot() == ApplyLines(old(Snapshot()), lines[..i])
        decreases |lines| - i
      {
        ApplyLinesSnoc(old(Snapshot()), lines, i + 1);
        assert lines[..i + 1][..i] == lines[..i];
        ApplyLineFits(Snapshot(), lines[i]);
        match ScanLine(lines[i]) {
        case None =>
        case Some((key, value)) =>
          if key == "allianceColor" {
            allianceColor := Truncate(value, ColorSize - 1);
          } else if key == "arenaIP" {
            arenaIP := Truncate(value, ArenaIPSize - 1);
          } else if key == "deviceIP" {
            deviceIP := Truncate(value, DeviceIPSize - 1);
          } else if key == "arenaPort" {
            arenaPort := Truncate(value, ArenaPortSize - 1);
          } else if key == "useDHCP" {
            useDHCP := Atoi(value);
          }
        }
        i := i + 1;
      }
      assert lines[..|lines|] == lines;
    }

    /** `if (strlen(value) > 0) strncpy(field, value, size - 1)` for each of the four fields. */
    method Store(color: string, ip: string, arena: string, port: string)
      requires Valid()
      modifies this
      ensures Valid()
      ensures Snapshot() == old(Snapshot()).(
        allianceColor := Updated(old(allianceColor), color, ColorSize),
        deviceIP := Updated(old(deviceIP), ip, DeviceIPSize),
        arenaIP := Updated(old(arenaIP), arena, ArenaIPSize),
        arenaPort := Updated(old(arenaPort), port, ArenaPortSize))
    {
      if |color| > 0 {
        allianceColor := Truncate(color, ColorSize - 1);
      }
      if |ip| > 0 {
        deviceIP := Truncate(ip, DeviceIPSize - 1);
      }
      if |arena| > 0 {
        arenaIP := Truncate(arena, ArenaIPSize - 1);
      }
      if |port| > 0 {
        arenaPort := Truncate(port, ArenaPortSize - 1);
      }
    }

    /**
     * The /setConfig update as written: `stale` is the C string the
     * uninitialised value[32] buffer happens to hold.
     */
    method SetConfig(body: string, stale: string)
      requires Valid()
      modifies this
      ensures Valid()
      ensures Snapshot() == ApplyForm(old(Snapshot()), body, stale)
    {
      var color := ParseQueryParams(body, "color", stale, FormBufferSize);
      var ip := ParseQueryParams(body, "ip", color, FormBufferSize);
      var arena := ParseQueryParams(body, "arenaIP", ip, FormBufferSize);
      var port := ParseQueryParams(body, "arenaPort", arena, FormBufferSize);
      Store(color, ip, arena, port);
      useDHCP := if Contains(body, "dhcp=") then 1 else 0;
      ApplyFormFits(old(Snapshot()), body, stale);
    }

    /** The /setConfig update with value[0] cleared before each decode. */
    method SetConfigFresh(body: string)
      requires Valid()
      modifies this
      ensures Valid()
      ensures Snapshot() == ApplyFormFresh(old(Snapshot()), body)
    {
      var color := ParseQueryParams(body, "color", "", FormBufferSize);
      var ip := ParseQueryParams(body, "ip", "", FormBufferSize);
      var arena := ParseQueryParams(body, "arenaIP", "", FormBufferSize);
      var port := ParseQueryParams(body, "arenaPort", "", FormBufferSize);
      Store(color, ip, arena, port);
      useDHCP := if Contains(body, "dhcp=") then 1 else 0;
      ApplyFormFits(old(Snapshot()), body, "");
    }

    /**
     * One pass of the server loop for a request held in the 4096-byte buffer:
     * parse, route, update and save on /setConfig, and answer. `stale` is what
     * the handler's uninitialised value buffer holds; `saved` is what
     * save_settings writes, None when nothing is saved.
     */
    method HandleRequest(raw: string, stale: string) returns (resp: Response, saved: Option<seq<string>>)
      requires RequestFits(raw)
      requires Valid()
      modifies this
      ensures Valid()
      ensures resp == Respond(RouteOf(ParseRequest(raw)), old(Snapshot()))
      ensures RouteOf(ParseRequest(raw)).UpdateConfig? ==>
        Snapshot() == ApplyForm(old(Snapshot()), RouteOf(ParseRequest(raw)).body, stale) &&
        saved == Some(SaveLines(Snapshot()))
      ensures !RouteOf(ParseRequest(raw)).UpdateConfig? ==>
        Snapshot() == old(Snapshot()) && saved == None
    {
      var req := ParseRequest(raw);
      var route := RouteOf(req);
      saved := None;
      match route {
        case Home =>
          resp := Response(200, HomePage);
        case Setup =>
          resp := Response(200, SetupPage(SetupFormOf(Snapshot())));
        case UpdateConfig(body) =>
          SetConfig(body, stale);
          saved := Some(SaveLines(Snapshot()));
          resp := Response(200, UpdatedPage);
        case NotFound =>
          resp := Response(404, NotFoundPage);
      }
    }
  }
}
