/**
 * The persisted configuration: the five settings, the lines save_settings
 * writes and the rule by which load_settings reads one line back.
 * The file is modelled as the sequence of its lines, each without its '\n'.
 */
module Settings {
  import opened Wrappers
  import opened CStrings

  /** A snapshot of the five configuration globals. */
  datatype Config = Config(
    allianceColor: string,
    arenaIP: string,
    deviceIP: string,
    arenaPort: string,
    useDHCP: int)

  /** Capacities of the global buffers, terminator included. */
  const ColorSize: nat := 32
  const ArenaIPSize: nat := 32
  const DeviceIPSize: nat := 32
  const ArenaPortSize: nat := 8

  /** The values the globals start with. */
  function Defaults(): (c: Config)
    ensures Fits(c)
  {
    Config("Red", "10.0.100.5", "", "8080", 1)
  }

  /** Each string fits its buffer with its terminator and useDHCP is a C int. */
  predicate Fits(c: Config) {
    |c.allianceColor| < ColorSize && |c.arenaIP| < ArenaIPSize &&
    |c.deviceIP| < DeviceIPSize && |c.arenaPort| < ArenaPortSize &&
    IsInt32(c.useDHCP)
  }

  /** One `key=value` line as fprintf writes it (without its newline). */
  function Line(key: string, value: string): string {
    key + "=" + value
  }

  /** The lines save_settings writes, in order. */
  function SaveLines(c: Config): (lines: seq<string>)
    ensures |lines| == 5
  {
    [ Line("allianceColor", c.allianceColor),
      Line("arenaIP", c.arenaIP),
      Line("deviceIP", c.deviceIP),
      Line("arenaPort", c.arenaPort),
      Line("useDHCP", Decimal(c.useDHCP)) ]
  }

  /** Sizes of the line[100], key[50] and value[50] buffers of load_settings. */
  const LineSize: nat := 100
  const KeySize: nat := 50
  const ValueSize: nat := 50

  /** Position `m` of `l` is its end or a newline: where `%[^\n]` stops. */
  predicate EndsValue(l: string, m: nat) {
    m == |l| || (m < |l| && l[m] == '\n')
  }

  /** `%[^=]=%[^\n]` cannot convert both: no `=`, an `=` first, or nothing but a newline (or nothing) after the first `=`. */
  predicate ScanFails(l: string) {
    '=' !in l || l[0] == '=' ||
    (var k := IndexOf(l, '='); k + 1 == |l| || l[k + 1] == '\n')
  }

  /**
   * sscanf(line, "%[^=]=%[^\n]", key, value) == 2: a key of one or more
   * characters other than `=`, then `=`, then a value of one or more
   * characters other than newline, running up to the first newline or the end;
   * None when either conversion fails: no `=`, an `=` first, or nothing but a
   * newline (or nothing at all) after the first `=`.
   */
  function ScanLine(line: string): (r: Option<(string, string)>)
    ensures r.Some? ==> r.value.0 != [] && '=' !in r.value.0 && NUL !in r.value.0
    ensures r.Some? ==> r.value.1 != [] && '\n' !in r.value.1 && NUL !in r.value.1
    ensures r.Some? ==> r.value.0 + "=" + r.value.1 <= CStr(line)
  {
    var l := CStr(line);
    var k := IndexOf(l, '=');
    if k == 0 || k == |l| then None
    else
      var rest := l[k + 1..];
      var n := IndexOf(rest, '\n');
      if n == 0 then None
      else
        assert l[..k] + "=" + rest[..n] == l[..k + 1 + n];
        Some((l[..k], rest[..n]))
  }

  /**
   * The whole of the line rule: a scanned key and value are `key=value` at the
   * start of the line, the key without `=`, the value running to the first
   * newline or the end; the scan fails exactly in the cases ScanFails names.
   */
  lemma ScanLineSpec(line: string)
    ensures ScanLine(line).Some? ==>
      var (key, value) := ScanLine(line).value;
      key != [] && '=' !in key && value != [] && '\n' !in value &&
      key + "=" + value <= CStr(line) && EndsValue(CStr(line), |key| + 1 + |value|)
    ensures ScanLine(line).None? <==> ScanFails(CStr(line))
  {
  }

  /**
   * The line fits load_settings' buffers: fgets reads it whole together with
   * its newline, whatever %[^=] and %[^\n] store fits key and value, and a
   * useDHCP value atoi converts without overflow. The code checks none of it.
   */
  predicate LineFits(line: string) {
    var l := CStr(line);
    var k := IndexOf(l, '=');
    |line| + 1 < LineSize &&
    k < KeySize &&
    (k < |l| ==> IndexOf(l[k + 1..], '\n') < ValueSize) &&
    (ScanLine(line).Some? && ScanLine(line).value.0 == "useDHCP" ==> IsInt32(Atoi(ScanLine(line).value.1)))
  }

  /** The keys load_settings knows. */
  predicate IsKnownKey(key: string) {
    key == "allianceColor" || key == "arenaIP" || key == "deviceIP" || key == "arenaPort" || key == "useDHCP"
  }

  /** The dispatch on the key of a scanned line: strncpy into the named buffer, atoi for useDHCP. */
  function Assign(c: Config, key: string, value: string): Config {
    if key == "allianceColor" then c.(allianceColor := Truncate(value, ColorSize - 1))
    else if key == "arenaIP" then c.(arenaIP := Truncate(value, ArenaIPSize - 1))
    else if key == "deviceIP" then c.(deviceIP := Truncate(value, DeviceIPSize - 1))
    else if key == "arenaPort" then c.(arenaPort := Truncate(value, ArenaPortSize - 1))
    else if key == "useDHCP" then c.(useDHCP := Atoi(value))
    else c
  }

  /** One pass of the load_settings loop body. */
  function ApplyLine(c: Config, line: string): Config {
    match ScanLine(line)
    case None => c
    case Some((key, value)) => Assign(c, key, value)
  }

  /** The configuration after load_settings has read `lines` in order. */
  function ApplyLines(c: Config, lines: seq<string>): Config {
    if lines == [] then c
    else ApplyLine(ApplyLines(c, lines[..|lines| - 1]), lines[|lines| - 1])
  }

  /** A line within the buffers keeps every field within its buffer. */
  lemma ApplyLineFits(c: Config, line: string)
    requires Fits(c) && LineFits(line)
    ensures Fits(ApplyLine(c, line))
  {
  }

  /** A line that fails the scan, or names an unknown key, changes nothing. */
  lemma ApplyLineIgnored(c: Config, line: string)
    requires ScanLine(line).None? || !IsKnownKey(ScanLine(line).value.0)
    ensures ApplyLine(c, line) == c
  {
  }

  /** Reading a file with one more line at its end. */
  lemma ApplyLinesAppend(c: Config, lines: seq<string>, line: string)
    ensures ApplyLines(c, lines + [line]) == ApplyLine(ApplyLines(c, lines), line)
  {
    assert (lines + [line])[..|lines|] == lines;
  }

  /** Lines load_settings ignores can be dropped from anywhere in the file. */
  lemma IgnoredLineDropped(c: Config, before: seq<string>, line: string, after: seq<string>)
    requires ScanLine(line).None? || !IsKnownKey(ScanLine(line).value.0)
    ensures ApplyLines(c, before + [line] + after) == ApplyLines(c, before + after)
  {
    forall x ensures ApplyLine(x, line) == x {
      ApplyLineIgnored(x, line);
    }
    NoOpLineDropped(c, before, line, after);
  }

  /** A line that changes no configuration can be dropped from anywhere in the file. */
  lemma {:induction false} NoOpLineDropped(c: Config, before: seq<string>, line: string, after: seq<string>)
    requires forall x :: ApplyLine(x, line) == x
    ensures ApplyLines(c, before + [line] + after) == ApplyLines(c, before + after)
    decreases |after|
  {
    if after == [] {
      assert before + [line] + after == before + [line];
      assert before + after == before;
      ApplyLinesAppend(c, before, line);
    } else {
      var last := after[|after| - 1];
      var init := after[..|after| - 1];
      NoOpLineDropped(c, before, line, init);
      assert before + [line] + after == (before + [line] + init) + [last];
      assert before + after == (before + init) + [last];
      ApplyLinesAppend(c, before + [line] + init, last);
      ApplyLinesAppend(c, before + init, last);
    }
  }

  /** A field value that survives a save/load round trip: no newline, no NUL. */
  predicate Storable(s: string) {
    '\n' !in s && NUL !in s
  }

  /** What a saved line restores: a non-empty value replaces, an empty one keeps the old. */
  function Restored(previous: string, saved: string): string {
    if saved == "" then previous else saved
  }

  /** In `key=value` the first `=` is the one after the key. */
  lemma KeyEnd(key: string, value: string)
    requires '=' !in key
    ensures IndexOf(Line(key, value), '=') == |key|
  {
    IndexOfAppend(key, "=" + value, '=');
    assert ("=" + value)[0] == '=';
    assert IndexOf("=" + value, '=') == 0;
    assert key + "=" + value == key + ("=" + value);
  }

  /** The line parser reads back what a `key=value` line holds. */
  lemma ScanKeyValue(key: string, value: string)
    requires key != [] && '=' !in key && NUL !in key
    requires Storable(value)
    ensures ScanLine(Line(key, value)) == if value == "" then None else Some((key, value))
  {
    var l := key + "=" + value;
    assert CStr(l) == l;
    KeyEnd(key, value);
    assert l[..|key|] == key && l[|key| + 1..] == value;
    if value != "" {
      assert IndexOf(value, '\n') == |value|;
      assert value[..|value|] == value;
    }
  }

  lemma SavedLineFits(key: string, value: string)
    requires key != [] && '=' !in key && NUL !in key && |key| < KeySize
    requires Storable(value) && |value| < ValueSize
    requires |key| + |value| + 2 < LineSize
    requires key == "useDHCP" && value != "" ==> IsInt32(Atoi(value))
    ensures LineFits(Line(key, value))
  {
    var l := key + "=" + value;
    ScanKeyValue(key, value);
    KeyEnd(key, value);
    assert CStr(l) == l;
    assert l[|key| + 1..] == value;
  }

  /** A saved `key=value` line: an empty value fails the scan, any other is assigned. */
  lemma ApplySavedLine(c: Config, key: string, value: string)
    requires key != [] && '=' !in key && NUL !in key
    requires Storable(value)
    ensures ApplyLine(c, Line(key, value)) == if value == "" then c else Assign(c, key, value)
  {
    ScanKeyValue(key, value);
  }

  /** Reading one more line of the file. */
  lemma ApplyLinesSnoc(c: Config, lines: seq<string>, k: nat)
    requires 0 < k <= |lines|
    ensures ApplyLines(c, lines[..k]) == ApplyLine(ApplyLines(c, lines[..k - 1]), lines[k - 1])
  {
    assert lines[..k][..k - 1] == lines[..k - 1];
  }

  /** load_settings reading a five-line file. */
  lemma SaveLinesUnfold(c: Config, lines: seq<string>)
    requires |lines| == 5
    ensures ApplyLines(c, lines) ==
      ApplyLine(ApplyLine(ApplyLine(ApplyLine(ApplyLine(c, lines[0]), lines[1]), lines[2]), lines[3]), lines[4])
  {
    var c1 := ApplyLine(c, lines[0]);
    assert ApplyLines(c, lines[..1]) == c1 by {
      ApplyLinesSnoc(c, lines, 1);
      assert lines[..0] == [];
    }
    var c2 := ApplyLine(c1, lines[1]);
    assert ApplyLines(c, lines[..2]) == c2 by {
      ApplyLinesSnoc(c, lines, 2);
    }
    var c3 := ApplyLine(c2, lines[2]);
    assert ApplyLines(c, lines[..3]) == c3 by {
      ApplyLinesSnoc(c, lines, 3);
    }
    var c4 := ApplyLine(c3, lines[3]);
    assert ApplyLines(c, lines[..4]) == c4 by {
      ApplyLinesSnoc(c, lines, 4);
    }
    assert ApplyLines(c, lines[..5]) == ApplyLine(c4, lines[4]) by {
      ApplyLinesSnoc(c, lines, 5);
    }
    assert lines[..5] == lines;
  }

  /** Each saved string line restores its setting, or keeps the old value when it was saved empty. */
  lemma RestoreColour(x: Config, v: string)
    requires Storable(v) && |v| < ColorSize
    ensures ApplyLine(x, Line("allianceColor", v)) == x.(allianceColor := Restored(x.allianceColor, v))
  {
    ApplySavedLine(x, "allianceColor", v);
  }

  lemma RestoreArenaIP(x: Config, v: string)
    requires Storable(v) && |v| < ArenaIPSize
    ensures ApplyLine(x, Line("arenaIP", v)) == x.(arenaIP := Restored(x.arenaIP, v))
  {
    ApplySavedLine(x, "arenaIP", v);
  }

  lemma RestoreDeviceIP(x: Config, v: string)
    requires Storable(v) && |v| < DeviceIPSize
    ensures ApplyLine(x, Line("deviceIP", v)) == x.(deviceIP := Restored(x.deviceIP, v))
  {
    ApplySavedLine(x, "deviceIP", v);
  }

  lemma RestorePort(x: Config, v: string)
    requires Storable(v) && |v| < ArenaPortSize
    ensures ApplyLine(x, Line("arenaPort", v)) == x.(arenaPort := Restored(x.arenaPort, v))
  {
    ApplySavedLine(x, "arenaPort", v);
  }

  lemma RestoreDhcp(x: Config, n: int)
    ensures ApplyLine(x, Line("useDHCP", Decimal(n))) == x.(useDHCP := n)
  {
    DecimalNoNul(n);
    AtoiDecimal(n);
    ApplySavedLine(x, "useDHCP", Decimal(n));
  }

  /** Every line save_settings writes for a configuration within its buffers fits load_settings' buffers. */
  lemma SaveLinesFit(c: Config)
    requires Fits(c)
    requires Storable(c.allianceColor) && Storable(c.arenaIP) && Storable(c.deviceIP) && Storable(c.arenaPort)
    ensures forall i :: 0 <= i < |SaveLines(c)| ==> LineFits(SaveLines(c)[i])
  {
    var lines := SaveLines(c);
    forall i | 0 <= i < |lines| ensures LineFits(lines[i]) {
      if i == 0 {
        SavedLineFits("allianceColor", c.allianceColor);
      } else if i == 1 {
        SavedLineFits("arenaIP", c.arenaIP);
      } else if i == 2 {
        SavedLineFits("deviceIP", c.deviceIP);
      } else if i == 3 {
        SavedLineFits("arenaPort", c.arenaPort);
      } else {
        DecimalNoNul(c.useDHCP);
        DecimalInt32Length(c.useDHCP);
        AtoiDecimal(c.useDHCP);
        SavedLineFits("useDHCP", Decimal(c.useDHCP));
      }
    }
  }

  /**
   * save_settings then load_settings: each string field saved non-empty is
   * restored, each saved empty (a line such as `deviceIP=`) fails the scan and
   * keeps the value it had before loading, and useDHCP is restored.
   */
  lemma SaveLoadRoundTrip(before: Config, c: Config)
    requires Storable(c.allianceColor) && Storable(c.arenaIP) && Storable(c.deviceIP) && Storable(c.arenaPort)
    requires Fits(c)
    ensures ApplyLines(before, SaveLines(c)) == Config(
      Restored(before.allianceColor, c.allianceColor),
      Restored(before.arenaIP, c.arenaIP),
      Restored(before.deviceIP, c.deviceIP),
      Restored(before.arenaPort, c.arenaPort),
      c.useDHCP)
  {
    var lines := SaveLines(c);
    var c1 := before.(allianceColor := Restored(before.allianceColor, c.allianceColor));
    var c2 := c1.(arenaIP := Restored(before.arenaIP, c.arenaIP));
    var c3 := c2.(deviceIP := Restored(before.deviceIP, c.deviceIP));
    var c4 := c3.(arenaPort := Restored(before.arenaPort, c.arenaPort));
    RestoreColour(before, c.allianceColor);
    RestoreArenaIP(c1, c.arenaIP);
    RestoreDeviceIP(c2, c.deviceIP);
    RestorePort(c3, c.arenaPort);
    RestoreDhcp(c4, c.useDHCP);
    SaveLinesUnfold(before, lines);
  }

  /** Every string field survives a save/load round trip. */
  predicate AllStorable(c: Config) {
    Storable(c.allianceColor) && Storable(c.arenaIP) && Storable(c.deviceIP) && Storable(c.arenaPort)
  }

  /** Loading what was just saved changes nothing. */
  lemma ReloadIsIdentity(c: Config)
    requires AllStorable(c) && Fits(c)
    ensures ApplyLines(c, SaveLines(c)) == c
  {
    SaveLoadRoundTrip(c, c);
  }

  /**
   * After a restart the globals start from their initialisers and load the
   * saved file: the saved configuration comes back whenever the colour, the
   * arena IP and the port were non-empty (an empty device IP matches its
   * initialiser).
   */
  lemma RestartRestores(c: Config)
    requires AllStorable(c) && Fits(c)
    requires NonEmptyFields(c)
    ensures ApplyLines(Defaults(), SaveLines(c)) == c
  {
    SaveLoadRoundTrip(Defaults(), c);
  }

  /**
   * The colour, arena IP and port are non-empty. The initialisers are, and
   * every assignment the program makes keeps them so (ApplyLineNonEmpty and
   * FreakyEstop.UpdateNonEmpty), so RestartRestores covers every
   * configuration the program can reach.
   */
  predicate NonEmptyFields(c: Config) {
    c.allianceColor != "" && c.arenaIP != "" && c.arenaPort != ""
  }

  lemma DefaultsNonEmpty()
    ensures NonEmptyFields(Defaults())
  {
  }

  /** A loaded line stores a non-empty value cut to a non-empty one, so it never empties a field. */
  lemma ApplyLineNonEmpty(c: Config, line: string)
    requires NonEmptyFields(c)
    ensures NonEmptyFields(ApplyLine(c, line))
  {
  }

  /** Loading a whole file never empties the colour, the arena IP or the port. */
  lemma {:induction false} ApplyLinesNonEmpty(c: Config, lines: seq<string>)
    requires NonEmptyFields(c)
    ensures NonEmptyFields(ApplyLines(c, lines))
  {
    if lines != [] {
      ApplyLinesNonEmpty(c, lines[..|lines| - 1]);
      ApplyLineNonEmpty(ApplyLines(c, lines[..|lines| - 1]), lines[|lines| - 1]);
    }
  }
}
