/** The `key = value` settings file: the line parser, the typed lookups with
    their defaults, and the conversion between the settings and a
    `BackendConfig`. The settings are a map from key to text; the file is
    given as the sequence of its lines (`std::getline`), or as absent when
    it cannot be opened. */
module ConfigParser {
  import opened Basics
  import opened Text
  import opened GameBackend

  type Settings = map<string, string>

  /** The characters `" \t"` trimmed from keys and values. */
  predicate IsBlank(c: char) { c == ' ' || c == '\t' }

  /** `find_first_not_of(" \t")`, with `|s|` for `npos`. */
  function FirstNonBlank(s: string): (i: nat)
    ensures i <= |s|
    ensures forall k :: 0 <= k < i ==> IsBlank(s[k])
    ensures i < |s| ==> !IsBlank(s[i])
  {
    if s == [] || !IsBlank(s[0]) then 0 else 1 + FirstNonBlank(s[1..])
  }

  /** `find_last_not_of(" \t") + 1`, which is 0 when `npos`. */
  function EndNonBlank(s: string): (j: nat)
    ensures j <= |s|
    ensures forall k :: j <= k < |s| ==> IsBlank(s[k])
    ensures j > 0 ==> !IsBlank(s[j - 1])
  {
    if s == [] || !IsBlank(s[|s| - 1]) then |s| else EndNonBlank(s[..|s| - 1])
  }

  /** The two `erase` calls: leading, then trailing spaces and tabs. */
  function Trim(s: string): string {
    var front := s[FirstNonBlank(s)..];
    front[..EndNonBlank(front)]
  }

  /** Trimming keeps a contiguous middle part of the text: everything cut
      off on either side is blank and the part kept starts and ends with a
      character that is not. */
  lemma TrimShape(s: string)
    ensures exists i, j :: 0 <= i <= j <= |s| && Trim(s) == s[i..j]
              && (forall k :: 0 <= k < i ==> IsBlank(s[k]))
              && (forall k :: j <= k < |s| ==> IsBlank(s[k]))
    ensures Trim(s) == [] || (!IsBlank(Trim(s)[0]) && !IsBlank(Trim(s)[|Trim(s)| - 1]))
  {
    var i := FirstNonBlank(s);
    var front := s[i..];
    var j := EndNonBlank(front);
    assert Trim(s) == s[i..i + j];
    assert forall k :: i + j <= k < |s| ==> s[k] == front[k - i];
  }

  lemma TrimIdempotent(s: string)
    ensures Trim(Trim(s)) == Trim(s)
  {
    TrimShape(s);
    var t := Trim(s);
    if t != [] {
      assert FirstNonBlank(t) == 0;
      assert EndNonBlank(t) == |t|;
      assert t[0..] == t;
    }
  }

  /** `line.find('=')`. */
  function FirstEquals(line: string): (r: Option<nat>)
    ensures r.Some? ==> r.value < |line| && line[r.value] == '='
    ensures r.Some? ==> forall k :: 0 <= k < r.value ==> line[k] != '='
    ensures r.None? ==> forall k :: 0 <= k < |line| ==> line[k] != '='
  {
    if line == [] then None
    else if line[0] == '=' then Some(0)
    else match FirstEquals(line[1..])
      case None => None
      case Some(p) => Some(p + 1)
  }

  predicate IsComment(line: string) {
    line == [] || line[0] == '#' || line[0] == ';'
  }

  /** What one line stores: nothing for an empty line, a comment, a line
      without `=` or an empty key; otherwise the trimmed text before the
      first `=` as key and the trimmed text after it as value. */
  function ParsedLine(line: string): Option<(string, string)> {
    if IsComment(line) then None
    else match FirstEquals(line)
      case None => None
      case Some(pos) =>
        var key := Trim(line[..pos]);
        if key == [] then None else Some((key, Trim(line[pos + 1..])))
  }

  function ApplyLine(m: Settings, line: string): Settings {
    match ParsedLine(line)
    case None => m
    case Some((k, v)) => m[k := v]
  }

  /** The settings after parsing `lines` in order, starting from `m`. */
  function ApplyLines(m: Settings, lines: seq<string>): Settings {
    if lines == [] then m else ApplyLine(ApplyLines(m, lines[..|lines| - 1]), lines[|lines| - 1])
  }

  /** Empty lines, comments and lines without `=` store nothing. */
  lemma IgnoredLines(m: Settings, line: string)
    requires IsComment(line) || forall k :: 0 <= k < |line| ==> line[k] != '='
    ensures ApplyLine(m, line) == m
  {
  }

  /** A line with `=` stores its trimmed key and trimmed value, split at the
      first `=` (so the value may contain further `=`), unless the key is
      empty once trimmed. */
  lemma StoredLine(m: Settings, before: string, after: string)
    requires before != [] && before[0] != '#' && before[0] != ';'
    requires forall k :: 0 <= k < |before| ==> before[k] != '='
    ensures var line := before + "=" + after;
      && (Trim(before) != [] ==> ApplyLine(m, line) == m[Trim(before) := Trim(after)])
      && (Trim(before) == [] ==> ApplyLine(m, line) == m)
  {
    var line := before + "=" + after;
    FirstEqualsAfterKey(before, after);
    assert line[..|before|] == before;
    assert line[|before| + 1..] == after;
  }

  /** The first `=` of such a line is the one after `before`. */
  lemma FirstEqualsAfterKey(before: string, after: string)
    requires forall k :: 0 <= k < |before| ==> before[k] != '='
    ensures FirstEquals(before + "=" + after) == Some(|before|)
  {
    var line := before + "=" + after;
    assert line[|before|] == '=';
    assert forall k :: 0 <= k < |before| ==> line[k] == before[k];
  }

  /** The key a line stores under, if any. */
  predicate Assigns(line: string, key: string) {
    ParsedLine(line).Some? && ParsedLine(line).value.0 == key
  }

  /** A line that does not assign `key` leaves it as it was. */
  lemma OtherLine(m: Settings, line: string, key: string)
    requires !Assigns(line, key)
    ensures key in ApplyLine(m, line) <==> key in m
    ensures key in m ==> ApplyLine(m, line)[key] == m[key]
  {
  }

  /** A key no line assigns keeps its value from before. */
  lemma {:induction false} UnassignedKeyKept(m: Settings, lines: seq<string>, key: string)
    requires forall i :: 0 <= i < |lines| ==> !Assigns(lines[i], key)
    ensures key in ApplyLines(m, lines) <==> key in m
    ensures key in m ==> ApplyLines(m, lines)[key] == m[key]
  {
    if lines != [] {
      var init := lines[..|lines| - 1];
      assert forall i :: 0 <= i < |init| ==> init[i] == lines[i];
      UnassignedKeyKept(m, init, key);
      OtherLine(ApplyLines(m, init), lines[|lines| - 1], key);
    }
  }

  /** A key holds the value of the last line that assigns it. */
  lemma {:induction false} LastAssignmentWins(m: Settings, lines: seq<string>, key: string, i: nat)
    requires i < |lines| && Assigns(lines[i], key)
    requires forall j :: i < j < |lines| ==> !Assigns(lines[j], key)
    ensures key in ApplyLines(m, lines)
    ensures ApplyLines(m, lines)[key] == ParsedLine(lines[i]).value.1
  {
    var init := lines[..|lines| - 1];
    if i < |lines| - 1 {
      assert forall j :: 0 <= j < |init| ==> init[j] == lines[j];
      LastAssignmentWins(m, init, key, i);
      OtherLine(ApplyLines(m, init), lines[|lines| - 1], key);
    }
  }

  // ---- typed lookups ----

  function GetStringSetting(m: Settings, key: string, defaultValue: string): (r: string)
    ensures key in m ==> r == m[key]
    ensures key !in m ==> r == defaultValue
  {
    if key in m then m[key] else defaultValue
  }

  /** The characters `isspace` accepts in the C locale. */
  predicate IsSpace(c: char) {
    c == ' ' || c == '\t' || c == '\n' || c == '\U{B}' || c == '\U{C}' || c == '\r'
  }

  function SpaceRun(s: string, i: nat): (n: nat)
    requires i <= |s|
    ensures i + n <= |s|
    ensures forall k :: i <= k < i + n ==> IsSpace(s[k])
    ensures i + n == |s| || !IsSpace(s[i + n])
    decreases |s| - i
  {
    if i < |s| && IsSpace(s[i]) then 1 + SpaceRun(s, i + 1) else 0
  }

  const INT_MIN: int := -0x8000_0000
  const INT_MAX: int := 0x7FFF_FFFF

  /** `std::stoi`: leading white space, an optional sign and at least one
      decimal digit, the rest ignored; None where it throws (no digits, or a
      value outside the range of `int`). */
  function Stoi(s: string): (r: Option<i32>)
    ensures r.Some? ==> exists k :: 0 <= k < |s| && IsDigit(s[k])
  {
    var i := SpaceRun(s, 0);
    var negative := i < |s| && s[i] == '-';
    var j := if i < |s| && (s[i] == '-' || s[i] == '+') then i + 1 else i;
    var n := DigitRun(s, j);
    if n == 0 then None
    else
      var magnitude: int := DecimalValue(s[j..j + n]);
      var v: int := if negative then -magnitude else magnitude;
      if INT_MIN <= v <= INT_MAX then Some(v) else None
  }

  /** `std::to_string` of a non-negative int is read back by `stoi`. */
  lemma StoiOfRendering(v: nat)
    requires v <= INT_MAX
    ensures Stoi(NatToString(v)) == Some(v)
  {
    DecimalRoundTrip(v);
    StoiOfDigits(NatToString(v));
  }

  /** `stoi` of a run of digits without a sign is their value, when it fits. */
  lemma StoiOfDigits(s: string)
    requires |s| >= 1 && AllDigits(s) && DecimalValue(s) <= INT_MAX
    ensures Stoi(s) == Some(DecimalValue(s))
  {
    assert SpaceRun(s, 0) == 0 by { assert IsDigit(s[0]); }
    DigitRunOfDigits(s, 0);
    assert s[0..|s|] == s;
  }

  /** Text without a digit makes `stoi` throw. */
  lemma StoiNeedsDigits(s: string)
    requires forall k :: 0 <= k < |s| ==> !IsDigit(s[k])
    ensures Stoi(s).None?
  {
  }

  /** The value when present and accepted by `stoi`, the default otherwise. */
  function GetIntSetting(m: Settings, key: string, defaultValue: i32): (r: i32)
    ensures key !in m ==> r == defaultValue
    ensures key in m && Stoi(m[key]).None? ==> r == defaultValue
    ensures key in m && Stoi(m[key]).Some? ==> r == Stoi(m[key]).value
  {
    if key in m then Stoi(m[key]).GetOr(defaultValue) else defaultValue
  }

  predicate IsTrueWord(v: string) { v == "true" || v == "1" || v == "yes" || v == "y" }
  predicate IsFalseWord(v: string) { v == "false" || v == "0" || v == "no" || v == "n" }

  function GetBoolSetting(m: Settings, key: string, defaultValue: bool): bool {
    if key in m then
      var value := Lowercase(m[key]);
      if IsTrueWord(value) then true
      else if IsFalseWord(value) then false
      else defaultValue
    else defaultValue
  }

  /** A stored value in any letter case is read as true when it is one of
      true/1/yes/y, as false when it is one of false/0/no/n; anything else,
      and a missing key, gives the default. */
  lemma BoolWords(m: Settings, key: string, defaultValue: bool)
    ensures key in m && IsTrueWord(Lowercase(m[key])) ==> GetBoolSetting(m, key, defaultValue)
    ensures key in m && IsFalseWord(Lowercase(m[key])) ==> !GetBoolSetting(m, key, defaultValue)
    ensures (key !in m || (!IsTrueWord(Lowercase(m[key])) && !IsFalseWord(Lowercase(m[key]))))
            ==> GetBoolSetting(m, key, defaultValue) == defaultValue
  {
  }

  /** "YES" and "No" are recognised whatever the default. */
  lemma BoolIgnoresCase(m: Settings, key: string, defaultValue: bool)
    ensures GetBoolSetting(m[key := "YES"], key, defaultValue)
    ensures !GetBoolSetting(m[key := "No"], key, defaultValue)
  {
    assert Lowercase("YES") == "yes";
    assert Lowercase("No") == "no";
  }

  /** The texts `SetIntSetting` and `SetBoolSetting` store. */
  function IntText(value: i32): string { IntToString(value) }
  function BoolText(value: bool): string { if value then "true" else "false" }

  /** What `GetBoolSetting` reads back what `SetBoolSetting` stored. */
  lemma BoolRoundTrip(m: Settings, key: string, value: bool, defaultValue: bool)
    ensures GetBoolSetting(m[key := BoolText(value)], key, defaultValue) == value
  {
    if value {
      assert Lowercase("true") == "true";
    } else {
      assert Lowercase("false") == "false";
    }
  }

  // ---- the backend configuration ----

  /** `SettingsToBackendConfig`: each field from its key, with the Revora
      defaults, and each port truncated to 16 bits. */
  function SettingsToBackendConfig(m: Settings): BackendConfig {
    BackendConfig(
      GetStringSetting(m, "backend", "Revora"),
      GetStringSetting(m, "loginServer", "gpcm.gamespy.com"),
      ToU16(GetIntSetting(m, "loginPort", 29900)),
      GetStringSetting(m, "chatServer", "peerchat.gamespy.com"),
      ToU16(GetIntSetting(m, "chatPort", 6667)),
      GetStringSetting(m, "masterServer", "ccgenzh.ms6.gamespy.com"),
      ToU16(GetIntSetting(m, "masterPort", 28900)),
      GetStringSetting(m, "natNegServer", "natneg1.gamespy.com"),
      ToU16(GetIntSetting(m, "natNegPort", 27901)))
  }

  /** The nine keys a configuration is stored under. */
  const CONFIG_KEYS: set<string> := {"backend", "loginServer", "loginPort", "chatServer", "chatPort",
                                     "masterServer", "masterPort", "natNegServer", "natNegPort"}

  /** `BackendConfigToSettings`: the nine keys overwritten, ports in decimal. */
  function ConfigSettings(m: Settings, c: BackendConfig): Settings {
    m["backend" := c.name]
     ["loginServer" := c.loginServerHost]
     ["loginPort" := IntText(c.loginServerPort)]
     ["chatServer" := c.chatServerHost]
     ["chatPort" := IntText(c.chatServerPort)]
     ["masterServer" := c.masterServerHost]
     ["masterPort" := IntText(c.masterServerPort)]
     ["natNegServer" := c.natNegServerHost]
     ["natNegPort" := IntText(c.natNegServerPort)]
  }

  /** With none of the keys present every default applies. */
  lemma Defaults(m: Settings)
    requires forall k :: k in CONFIG_KEYS ==> k !in m
    ensures SettingsToBackendConfig(m) == BackendConfig(
      "Revora", "gpcm.gamespy.com", 29900, "peerchat.gamespy.com", 6667,
      "ccgenzh.ms6.gamespy.com", 28900, "natneg1.gamespy.com", 27901)
  {
  }

  /** A port setting is read through `stoi` and then cut to 16 bits, so
      out-of-range and negative values wrap around. */
  lemma PortTruncated(m: Settings, value: string)
    requires Stoi(value).Some?
    ensures SettingsToBackendConfig(m["loginPort" := value]).loginServerPort == Stoi(value).value % TWO_16
  {
  }

  /** A port setting `stoi` cannot read falls back to the default port. */
  lemma UnreadablePortDefaults(m: Settings, value: string)
    requires Stoi(value).None?
    ensures SettingsToBackendConfig(m["masterPort" := value]).masterServerPort == 28900
  {
  }

  /** A port stored in decimal is read back unchanged. */
  lemma PortReadBack(t: Settings, key: string, port: u16, defaultValue: i32)
    requires key in t && t[key] == IntText(port)
    ensures ToU16(GetIntSetting(t, key, defaultValue)) == port
  {
    StoiOfRendering(port);
  }

  /** Each of the nine keys holds its field's text. */
  lemma ConfigSettingsHold(m: Settings, c: BackendConfig)
    ensures var t := ConfigSettings(m, c);
      && CONFIG_KEYS <= t.Keys
      && t["backend"] == c.name && t["loginServer"] == c.loginServerHost
      && t["loginPort"] == IntText(c.loginServerPort)
      && t["chatServer"] == c.chatServerHost && t["chatPort"] == IntText(c.chatServerPort)
      && t["masterServer"] == c.masterServerHost && t["masterPort"] == IntText(c.masterServerPort)
      && t["natNegServer"] == c.natNegServerHost && t["natNegPort"] == IntText(c.natNegServerPort)
  {
  }

  /** Storing a configuration and reading it back gives the same
      configuration, whatever else the settings hold. */
  lemma ConfigRoundTrip(m: Settings, c: BackendConfig)
    ensures SettingsToBackendConfig(ConfigSettings(m, c)) == c
  {
    var t := ConfigSettings(m, c);
    ConfigSettingsHold(m, c);
    PortReadBack(t, "loginPort", c.loginServerPort, 29900);
    PortReadBack(t, "chatPort", c.chatServerPort, 6667);
    PortReadBack(t, "masterPort", c.masterServerPort, 28900);
    PortReadBack(t, "natNegPort", c.natNegServerPort, 27901);
  }

  /** Storing a configuration touches only its nine keys. */
  lemma ConfigSettingsFrame(m: Settings, c: BackendConfig, k: string)
    requires k !in CONFIG_KEYS
    ensures (k in ConfigSettings(m, c) <==> k in m)
    ensures k in m ==> ConfigSettings(m, c)[k] == m[k]
  {
  }

  // ---- the parser object ----

  class Parser {
    var settings: Settings

    /** `defaults` is `BackendConfig::CreateDefaultRevora()`, whose value
        is declared in a header that is not part of this model. */
    constructor(defaults: BackendConfig)
      ensures settings == ConfigSettings(map[], defaults)
    {
      settings := map[];
      new;
      BackendConfigToSettings(defaults);
    }

    method SetStringSetting(key: string, value: string)
      modifies this
      ensures settings == old(settings)[key := value]
    {
      settings := settings[key := value];
    }

    method SetIntSetting(key: string, value: i32)
      modifies this
      ensures settings == old(settings)[key := IntText(value)]
    {
      settings := settings[key := IntToString(value)];
    }

    method SetBoolSetting(key: string, value: bool)
      modifies this
      ensures settings == old(settings)[key := BoolText(value)]
    {
      settings := settings[key := if value then "true" else "false"];
    }

    method BackendConfigToSettings(config: BackendConfig)
      modifies this
      ensures settings == ConfigSettings(old(settings), config)
    {
      SetStringSetting("backend", config.name);
      SetStringSetting("loginServer", config.loginServerHost);
      SetIntSetting("loginPort", config.loginServerPort);
      SetStringSetting("chatServer", config.chatServerHost);
      SetIntSetting("chatPort", config.chatServerPort);
      SetStringSetting("masterServer", config.masterServerHost);
      SetIntSetting("masterPort", config.masterServerPort);
      SetStringSetting("natNegServer", config.natNegServerHost);
      SetIntSetting("natNegPort", config.natNegServerPort);
    }

    method SetBackendConfig(config: BackendConfig)
      modifies this
      ensures settings == ConfigSettings(old(settings), config)
    {
      BackendConfigToSettings(config);
    }

    function GetBackendConfig(): BackendConfig
      reads this
    {
      SettingsToBackendConfig(settings)
    }

    method ParseLine(line: string)
      modifies this
      ensures settings == ApplyLine(old(settings), line)
    {
      if |line| == 0 || line[0] == '#' || line[0] == ';' {
        return;
      }
      var pos := FirstEquals(line);
      if pos.None? {
        return;
      }
      var key := line[..pos.value];
      var value := line[pos.value + 1..];
      key := key[FirstNonBlank(key)..];
      key := key[..EndNonBlank(key)];
      value := value[FirstNonBlank(value)..];
      value := value[..EndNonBlank(value)];
      if key != [] {
        settings := settings[key := value];
      }
    }

    /** `LoadFromFile`, with `file` absent when the file does not open: the
        settings are then left alone; otherwise they are cleared and every
        line is parsed in order. */
    method LoadFromFile(file: Option<seq<string>>) returns (ok: bool)
      modifies this
      ensures ok <==> file.Some?
      ensures file.None? ==> settings == old(settings)
      ensures file.Some? ==> settings == ApplyLines(map[], file.value)
    {
      if file.None? {
        return false;
      }
      var lines := file.value;
      settings := map[];
      for i := 0 to |lines|
        invariant settings == ApplyLines(map[], lines[..i])
      {
        ParseLine(lines[i]);
        assert lines[..i + 1][..i] == lines[..i];
      }
      assert lines[..|lines|] == lines;
      return true;
    }
  }

  /** Setting a configuration on a parser and asking for it back gives the
      same configuration. */
  method SetThenGet(p: Parser, c: BackendConfig) returns (got: BackendConfig)
    modifies p
    ensures got == c
  {
    p.SetBackendConfig(c);
    got := p.GetBackendConfig();
    ConfigRoundTrip(old(p.settings), c);
  }

  /** A successful load forgets whatever the parser held before. */
  method LoadForgets(p: Parser, q: Parser, lines: seq<string>)
    modifies p, q
    ensures p != q ==> p.settings == q.settings
  {
    var _ := p.LoadFromFile(Some(lines));
    var _ := q.LoadFromFile(Some(lines));
  }
}
