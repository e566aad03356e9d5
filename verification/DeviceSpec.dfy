/** The text form of a device to connect to: `ble:`, `addr:`, `tcp:`, `serial:` or `mesh:`. */
module DeviceSpec {
  import opened Options
  import opened Strings

  datatype Spec = Spec(
    name: string, address: string, pin: string, tcpHost: string, serialPort: string,
    serialBaud: nat, meshHost: string, meshUser: string, meshPassword: string)

  const DEFAULT_PIN := "123456"
  const DEFAULT_BAUD := 115200
  const DEFAULTS := Spec("", "", DEFAULT_PIN, "", "", DEFAULT_BAUD, "", "", "")

  datatype Transport = Ble | Addr | Tcp | Serial | Mesh

  function TypeName(t: Transport): string {
    match t
    case Ble => "ble"
    case Addr => "addr"
    case Tcp => "tcp"
    case Serial => "serial"
    case Mesh => "mesh"
  }

  function TypeOf(name: string): (t: Option<Transport>)
    ensures t.Some? ==> TypeName(t.value) == name
  {
    if name == "ble" then Some(Ble)
    else if name == "addr" then Some(Addr)
    else if name == "tcp" then Some(Tcp)
    else if name == "serial" then Some(Serial)
    else if name == "mesh" then Some(Mesh)
    else None
  }

  // ------------------------------------------------------------------ numbers

  predicate IsBlank(c: char) {
    c == ' ' || ('\t' <= c <= '\r')
  }

  function Digits(s: string, acc: nat): nat {
    if s == [] || !IsDigit(s[0]) then acc else Digits(s[1..], acc * 10 + DigitValue(s[0]))
  }

  /** `atoi`: blanks, an optional sign, then digits; anything else ends the number. */
  function Atoi(s: string): int {
    if s == [] then 0
    else if IsBlank(s[0]) then Atoi(s[1..])
    else if s[0] == '-' then -(Digits(s[1..], 0) as int)
    else if s[0] == '+' then Digits(s[1..], 0)
    else Digits(s, 0)
  }

  lemma {:induction false} DigitsSnoc(s: string, c: char, acc: nat)
    requires IsDigit(c) && forall i :: 0 <= i < |s| ==> IsDigit(s[i])
    ensures Digits(s + [c], acc) == Digits(s, acc) * 10 + DigitValue(c)
    decreases |s|
  {
    if s == [] {
      assert s + [c] == [c];
    } else {
      DigitsSnoc(s[1..], c, acc * 10 + DigitValue(s[0]));
      assert (s + [c])[1..] == s[1..] + [c];
    }
  }

  lemma {:induction false} DigitsOfDecimal(n: nat)
    ensures Digits(Decimal(n), 0) == n
  {
    assert DigitValue(Digit(n % 10)) == n % 10;
    if n >= 10 {
      DigitsOfDecimal(n / 10);
      DigitsSnoc(Decimal(n / 10), Digit(n % 10), 0);
    }
  }

  lemma AtoiOfDecimal(n: nat)
    ensures Atoi(Decimal(n)) == n
  {
    DigitsOfDecimal(n);
    assert IsDigit(Decimal(n)[0]);
  }

  lemma {:induction false} DigitsThen(s: string, rest: string, acc: nat)
    requires forall i :: 0 <= i < |s| ==> IsDigit(s[i])
    requires rest != "" ==> !IsDigit(rest[0])
    ensures Digits(s + rest, acc) == Digits(s, acc)
    decreases |s|
  {
    if s == [] {
      assert s + rest == rest;
    } else {
      DigitsThen(s[1..], rest, acc * 10 + DigitValue(s[0]));
      assert (s + rest)[1..] == s[1..] + rest;
    }
  }

  lemma {:induction false} AtoiSkipsBlanks(blanks: string, s: string)
    requires forall i :: 0 <= i < |blanks| ==> 9 <= blanks[i] as int <= 13 || blanks[i] as int == 32
    ensures Atoi(blanks + s) == Atoi(s)
    decreases |blanks|
  {
    if blanks == [] {
      assert blanks + s == s;
    } else {
      assert (blanks + s)[1..] == blanks[1..] + s;
      AtoiSkipsBlanks(blanks[1..], s);
    }
  }

  lemma NumberRead(n: nat, rest: string)
    requires rest != "" ==> !IsDigit(rest[0])
    ensures Digits(Decimal(n) + rest, 0) == n && IsDigit((Decimal(n) + rest)[0])
  {
    DigitsOfDecimal(n);
    DigitsThen(Decimal(n), rest, 0);
    assert (Decimal(n) + rest)[0] == Decimal(n)[0];
  }

  /** Blanks in front and anything that is no digit behind do not matter, and a sign counts. */
  lemma AtoiReads(blanks: string, n: nat, rest: string)
    requires forall i :: 0 <= i < |blanks| ==> 9 <= blanks[i] as int <= 13 || blanks[i] as int == 32
    requires rest != "" ==> !IsDigit(rest[0])
    ensures Atoi(blanks + (Decimal(n) + rest)) == n
    ensures Atoi(blanks + (['+'] + (Decimal(n) + rest))) == n
    ensures Atoi(blanks + (['-'] + (Decimal(n) + rest))) == -(n as int)
  {
    var s := Decimal(n) + rest;
    AtoiSigned(n, rest);
    hide Atoi, Decimal;
    AtoiSkipsBlanks(blanks, s);
    AtoiSkipsBlanks(blanks, ['+'] + s);
    AtoiSkipsBlanks(blanks, ['-'] + s);
  }

  lemma AtoiSigned(n: nat, rest: string)
    requires rest != "" ==> !IsDigit(rest[0])
    ensures Atoi(Decimal(n) + rest) == Atoi(['+'] + (Decimal(n) + rest)) == n
    ensures Atoi(['-'] + (Decimal(n) + rest)) == -(n as int)
  {
    var s := Decimal(n) + rest;
    NumberRead(n, rest);
    SignRead(s);
    assert Atoi(s) == Digits(s, 0);
    hide Decimal, Digits, Atoi;
  }

  lemma SignRead(s: string)
    ensures Atoi(['+'] + s) == Digits(s, 0) && Atoi(['-'] + s) == -(Digits(s, 0) as int)
  {
    hide Digits;
    var plus, minus := ['+'] + s, ['-'] + s;
    assert plus[0] == '+' && plus[1..] == s;
    assert minus[0] == '-' && minus[1..] == s;
  }

  // ------------------------------------------------------------------ parsing

  /** The text before and after the first colon; no colon leaves nothing after it. */
  datatype Split = Split(before: string, found: bool, after: string)

  function AtColon(s: string): (r: Split)
    ensures ':' !in r.before
    ensures s == if r.found then r.before + [':'] + r.after else r.before
    ensures !r.found ==> r.after == ""
  {
    var i := Find(s, ':');
    if i == |s| then Split(s, false, "") else Split(s[..i], true, s[i + 1..])
  }

  /** Each transport fills its own fields of the record. */
  function ParseRest(t: Transport, rest: string, out: Spec): Spec {
    match t
    case Ble =>
      var c := AtColon(rest);
      if c.found then out.(name := c.before, pin := c.after) else out.(name := rest)
    case Addr =>
      if |rest| > 17 && rest[17] == ':' then out.(address := rest[..17], pin := rest[18..])
      else out.(address := rest)
    case Tcp => out.(tcpHost := rest)
    case Serial =>
      var c := AtColon(rest);
      if c.found then
        out.(serialPort := c.before, serialBaud := if Atoi(c.after) <= 0 then DEFAULT_BAUD else Atoi(c.after))
      else out.(serialPort := rest)
    case Mesh =>
      var c := AtSecondColon(rest);
      if c.found then WithLogin(out.(meshHost := c.before), c.after) else out.(meshHost := rest)
  }

  /** The text before and after the second colon. */
  function AtSecondColon(s: string): Split {
    var first := AtColon(s);
    var second := AtColon(first.after);
    if first.found && second.found then Split(first.before + [':'] + second.before, true, second.after)
    else Split(s, false, "")
  }

  /** A user name and, after a colon, a password that may hold colons itself. */
  function WithLogin(out: Spec, login: string): Spec {
    var c := AtColon(login);
    if c.found then out.(meshUser := c.before, meshPassword := c.after) else out.(meshUser := login)
  }

  /** The field that must not stay empty. */
  function Principal(t: Transport, spec: Spec): string {
    match t
    case Ble => spec.name
    case Addr => spec.address
    case Tcp => spec.tcpHost
    case Serial => spec.serialPort
    case Mesh => spec.meshHost
  }

  /** The record a text fills in, starting from `out`; none if the text is refused. */
  function Parse(s: string, out: Spec): Option<Spec> {
    var c := AtColon(s);
    if !c.found || TypeOf(c.before).None? then None
    else
      var spec := ParseRest(TypeOf(c.before).value, c.after, out);
      if Principal(TypeOf(c.before).value, spec) == "" then None else Some(spec)
  }

  /** What a refused text leaves behind: nothing, unless only its main field was empty. */
  function Refused(s: string, out: Spec): Spec {
    var c := AtColon(s);
    if !c.found || TypeOf(c.before).None? then out else ParseRest(TypeOf(c.before).value, c.after, out)
  }

  // --------------------------------------------------------------- formatting

  function Rest(t: Transport, spec: Spec): string {
    match t
    case Mesh =>
      if spec.meshUser != "" || spec.meshPassword != ""
      then spec.meshHost + [':'] + spec.meshUser + [':'] + spec.meshPassword else spec.meshHost
    case Tcp => spec.tcpHost
    case Serial => spec.serialPort + [':'] + Decimal(spec.serialBaud)
    case Addr =>
      if spec.pin != "" && spec.pin != DEFAULT_PIN then spec.address + [':'] + spec.pin else spec.address
    case Ble =>
      if spec.pin != "" && spec.pin != DEFAULT_PIN then spec.name + [':'] + spec.pin else spec.name
  }

  function Prefixed(t: Transport, rest: string): string {
    TypeName(t) + [':'] + rest
  }

  /** The text for a record: of the transports filled in, the first in this order. */
  function Format(spec: Spec): string {
    if spec.meshHost != "" then Prefixed(Mesh, Rest(Mesh, spec))
    else if spec.tcpHost != "" then Prefixed(Tcp, Rest(Tcp, spec))
    else if spec.serialPort != "" then Prefixed(Serial, Rest(Serial, spec))
    else if spec.address != "" then Prefixed(Addr, Rest(Addr, spec))
    else if spec.name != "" then Prefixed(Ble, Rest(Ble, spec))
    else ""
  }

  // ------------------------------------------------------------------- proofs

  lemma AtColonOf(before: string, after: string)
    requires ':' !in before
    ensures AtColon(before + [':'] + after) == Split(before, true, after)
  {
    var s := before + [':'] + after;
    FindSplit(before, ':', after);
    assert s[..|before|] == before && s[|before| + 1..] == after;
  }

  lemma TypeOfName(t: Transport)
    ensures TypeOf(TypeName(t)) == Some(t) && ':' !in TypeName(t)
  {
    match t
    case Ble => assert TypeName(t) == "ble";
    case Addr => assert TypeName(t) == "addr";
    case Tcp => assert TypeName(t) == "tcp";
    case Serial => assert TypeName(t) == "serial";
    case Mesh => assert TypeName(t) == "mesh";
  }

  /** Parsing a text with a known type is parsing what comes after the type. */
  lemma ParsePrefixed(t: Transport, rest: string, out: Spec)
    ensures Parse(Prefixed(t, rest), out)
         == var spec := ParseRest(t, rest, out); if Principal(t, spec) == "" then None else Some(spec)
  {
    TypeOfName(t);
    AtColonOf(TypeName(t), rest);
  }

  /** Only the fields of its own transport differ from the defaults, so the formatter picks
      the transport that was parsed. */
  lemma FormatPicks(t: Transport, rest: string)
    requires Principal(t, ParseRest(t, rest, DEFAULTS)) != ""
    ensures var spec := ParseRest(t, rest, DEFAULTS); Format(spec) == Prefixed(t, Rest(t, spec))
  {
  }

  /** The record with an empty pin put back to the default one. */
  function Normal(spec: Spec): Spec {
    if spec.pin == "" then spec.(pin := DEFAULT_PIN) else spec
  }

  lemma BleAgain(rest: string)
    ensures var spec := ParseRest(Ble, rest, DEFAULTS); ParseRest(Ble, Rest(Ble, spec), DEFAULTS) == Normal(spec)
  {
    var spec := ParseRest(Ble, rest, DEFAULTS);
    AtColonOf(spec.name, spec.pin);
  }

  lemma AddrAgain(rest: string)
    ensures var spec := ParseRest(Addr, rest, DEFAULTS); ParseRest(Addr, Rest(Addr, spec), DEFAULTS) == Normal(spec)
  {
    var spec := ParseRest(Addr, rest, DEFAULTS);
    if |rest| > 17 && rest[17] == ':' {
      var again := spec.address + [':'] + spec.pin;
      assert again[..17] == spec.address && again[18..] == spec.pin;
    }
  }

  lemma SerialAgain(rest: string)
    ensures var spec := ParseRest(Serial, rest, DEFAULTS); ParseRest(Serial, Rest(Serial, spec), DEFAULTS) == spec
  {
    var spec := ParseRest(Serial, rest, DEFAULTS);
    AtColonOf(spec.serialPort, Decimal(spec.serialBaud));
    AtoiOfDecimal(spec.serialBaud);
  }

  /** A host with one colon in it, and something after a second colon. */
  lemma SecondColonOf(host: string, port: string, after: string)
    requires ':' !in host && ':' !in port
    ensures AtSecondColon(host + [':'] + port + [':'] + after) == Split(host + [':'] + port, true, after)
    ensures !AtSecondColon(host + [':'] + port).found
  {
    var rest := port + [':'] + after;
    assert host + [':'] + port + [':'] + after == host + [':'] + rest;
    AtColonOf(host, rest);
    AtColonOf(port, after);
    AtColonOf(host, port);
    assert !AtColon(port).found;
  }

  /** What the host and the login are printed as. */
  lemma LoginAgain(host: string, port: string, login: string)
    requires ':' !in host && ':' !in port
    ensures var spec := WithLogin(DEFAULTS.(meshHost := host + [':'] + port), login);
            ParseRest(Mesh, Rest(Mesh, spec), DEFAULTS) == spec
  {
    var address := host + [':'] + port;
    var spec := WithLogin(DEFAULTS.(meshHost := address), login);
    if spec.meshUser != "" || spec.meshPassword != "" {
      LoginPrinted(host, port, spec.meshUser, spec.meshPassword);
    } else {
      SecondColonOf(host, port, "");
      assert Rest(Mesh, spec) == address && !AtSecondColon(address).found;
    }
  }

  lemma LoginPrinted(host: string, port: string, user: string, password: string)
    requires ':' !in host && ':' !in port && ':' !in user
    ensures var address := host + [':'] + port;
            ParseRest(Mesh, address + [':'] + user + [':'] + password, DEFAULTS)
            == DEFAULTS.(meshHost := address, meshUser := user, meshPassword := password)
  {
    var address, login := host + [':'] + port, user + [':'] + password;
    SecondColonOf(host, port, login);
    AtColonOf(user, password);
    Regroup(address, user, password);
  }

  lemma Regroup(a: string, b: string, c: string)
    ensures a + [':'] + b + [':'] + c == a + [':'] + (b + [':'] + c)
  {
  }

  lemma MeshAgain(rest: string)
    ensures var spec := ParseRest(Mesh, rest, DEFAULTS); ParseRest(Mesh, Rest(Mesh, spec), DEFAULTS) == spec
  {
    var c := AtSecondColon(rest);
    if c.found {
      var host := AtColon(rest);
      LoginAgain(host.before, AtColon(host.after).before, c.after);
    }
  }

  lemma ParsesAgain(t: Transport, rest: string)
    ensures var spec := ParseRest(t, rest, DEFAULTS); ParseRest(t, Rest(t, spec), DEFAULTS) == Normal(spec)
  {
    match t
    case Ble => BleAgain(rest);
    case Addr => AddrAgain(rest);
    case Tcp =>
    case Serial => SerialAgain(rest);
    case Mesh => MeshAgain(rest);
  }

  /** What a text parsed from the defaults comes from. */
  lemma ParsedFrom(s: string) returns (t: Transport, rest: string)
    requires Parse(s, DEFAULTS).Some?
    ensures Parse(s, DEFAULTS).value == ParseRest(t, rest, DEFAULTS)
    ensures Principal(t, ParseRest(t, rest, DEFAULTS)) != ""
  {
    var c := AtColon(s);
    t, rest := TypeOf(c.before).value, c.after;
  }

  lemma PrintedParses(t: Transport, rest: string, spec: Spec)
    requires spec == ParseRest(t, rest, DEFAULTS) && Principal(t, spec) != ""
    ensures Parse(Prefixed(t, Rest(t, spec)), DEFAULTS) == Some(Normal(spec))
  {
    ParsePrefixed(t, Rest(t, spec), DEFAULTS);
    ParsesAgain(t, rest);
    assert Principal(t, Normal(spec)) == Principal(t, spec);
  }

  lemma FormatParsesToNormal(s: string)
    requires Parse(s, DEFAULTS).Some?
    ensures Parse(Format(Parse(s, DEFAULTS).value), DEFAULTS) == Some(Normal(Parse(s, DEFAULTS).value))
  {
    var t, rest := ParsedFrom(s);
    FormatPicks(t, rest);
    PrintedParses(t, rest, Parse(s, DEFAULTS).value);
  }

  /** Printing what was parsed and parsing it again gives the same record exactly when the
      pin that was parsed is not empty. */
  lemma RoundTripExactly(s: string)
    requires Parse(s, DEFAULTS).Some?
    ensures var spec := Parse(s, DEFAULTS).value;
            Parse(Format(spec), DEFAULTS) == Some(spec) <==> spec.pin != ""
  {
    FormatParsesToNormal(s);
  }

  /** An empty pin does come out of an accepted text. */
  lemma EmptyPinIsLost()
    ensures Parse("ble:x:", DEFAULTS) == Some(DEFAULTS.(name := "x", pin := ""))
    ensures Parse(Format(DEFAULTS.(name := "x", pin := "")), DEFAULTS) == Some(DEFAULTS.(name := "x", pin := "123456"))
  {
    assert Parse("ble:x:", DEFAULTS) == Some(DEFAULTS.(name := "x", pin := "")) by {
      AtColonOf("ble", "x:");
      assert "ble" + [':'] + "x:" == "ble:x:";
      AtColonOf("x", "");
      assert "x" + [':'] + "" == "x:";
    }
    hide Parse, Format;
    FormatParsesToNormal("ble:x:");
  }

  /** The printed text is a normal form for every accepted text. */
  lemma FormatIsNormalForm(s: string)
    requires Parse(s, DEFAULTS).Some?
    ensures var text := Format(Parse(s, DEFAULTS).value);
            Parse(text, DEFAULTS).Some? && Format(Parse(text, DEFAULTS).value) == text
  {
    FormatParsesToNormal(s);
    var t, rest := ParsedFrom(s);
    var spec := ParseRest(t, rest, DEFAULTS);
    FormatPicks(t, rest);
  }

  // ------------------------------------------------------- what each text says

  lemma MainField(t: Transport, rest: string, out: Spec)
    ensures Principal(t, ParseRest(t, rest, out)) == "" <==>
              rest == "" || ((t.Ble? || t.Serial?) && rest[0] == ':')
  {
  }

  lemma AcceptedTyped(t: Transport, s: string, out: Spec)
    requires TypeName(t) + [':'] <= s
    ensures Parse(s, out).Some? <==>
              TypeName(t) + [':'] < s && !((t.Ble? || t.Serial?) && s[|TypeName(t)| + 1] == ':')
  {
    var rest := s[|TypeName(t)| + 1..];
    assert s == Prefixed(t, rest);
    hide Parse, ParseRest, Principal;
    ParsePrefixed(t, rest, out);
    MainField(t, rest, out);
    assert TypeName(t) + [':'] < s <==> rest != "";
  }

  lemma TypeTexts()
    ensures TypeName(Ble) + [':'] == "ble:" && TypeName(Addr) + [':'] == "addr:" && TypeName(Tcp) + [':'] == "tcp:"
    ensures TypeName(Serial) + [':'] == "serial:" && TypeName(Mesh) + [':'] == "mesh:"
    ensures |TypeName(Ble)| == 3 && |TypeName(Serial)| == 6
    ensures "ble:"[0] == 'b' && "addr:"[0] == 'a' && "tcp:"[0] == 't' && "serial:"[0] == 's' && "mesh:"[0] == 'm'
  {
  }

  lemma AcceptedHasType(s: string, out: Spec)
    requires Parse(s, out).Some?
    ensures "ble:" <= s || "addr:" <= s || "tcp:" <= s || "serial:" <= s || "mesh:" <= s
  {
    var t := TypeOf(AtColon(s).before).value;
    assert TypeName(t) + [':'] <= s;
    TypeTexts();
  }

  /** The texts that are accepted: a known type with something behind it, which for `ble` and
      `serial` must not be a colon. */
  lemma AcceptedExactly(s: string, out: Spec)
    ensures Parse(s, out).Some?
            <==> (|| ("ble:" < s && s[4] != ':') || ("serial:" < s && s[7] != ':')
                  || "addr:" < s || "tcp:" < s || "mesh:" < s)
  {
    TypeTexts();
    hide Parse, TypeName;
    if "ble:" <= s {
      AcceptedTyped(Ble, s, out);
    } else if "addr:" <= s {
      AcceptedTyped(Addr, s, out);
    } else if "tcp:" <= s {
      AcceptedTyped(Tcp, s, out);
    } else if "serial:" <= s {
      AcceptedTyped(Serial, s, out);
    } else if "mesh:" <= s {
      AcceptedTyped(Mesh, s, out);
    } else if Parse(s, out).Some? {
      AcceptedHasType(s, out);
    }
  }

  lemma RefusedTyped(t: Transport, rest: string, out: Spec)
    ensures Refused(Prefixed(t, rest), out) == ParseRest(t, rest, out)
  {
    TypeOfName(t);
    AtColonOf(TypeName(t), rest);
  }

  lemma RefusedUntyped(kind: string, rest: string, out: Spec)
    requires ':' !in kind && kind !in ["ble", "addr", "tcp", "serial", "mesh"]
    ensures Refused(kind, out) == out && Refused(kind + ":" + rest, out) == out
  {
    NoColon(kind);
    AtColonOf(kind, rest);
  }

  /** What a refused text leaves behind: nothing without a known type, and otherwise the empty
      main field, with the pin or the baud rate behind it. */
  lemma RefusedLeaves(pin: string, out: Spec)
    ensures Refused("ble:" + (":" + pin), out) == out.(name := "", pin := pin)
    ensures Refused("serial:" + (":" + pin), out).serialPort == "" && Refused("addr:", out) == out.(address := "")
    ensures Refused("tcp:", out) == out.(tcpHost := "") && Refused("mesh:", out) == out.(meshHost := "")
  {
    TypeTexts();
    RefusedTyped(Ble, ":" + pin, out);
    RefusedTyped(Serial, ":" + pin, out);
    RefusedTyped(Addr, "", out);
    RefusedTyped(Tcp, "", out);
    RefusedTyped(Mesh, "", out);
    AtColonOf("", pin);
    assert "" + [':'] + pin == ":" + pin;
    assert Prefixed(Ble, ":" + pin) == "ble:" + (":" + pin) && Prefixed(Serial, ":" + pin) == "serial:" + (":" + pin);
    assert Prefixed(Addr, "") == "addr:" && Prefixed(Tcp, "") == "tcp:" && Prefixed(Mesh, "") == "mesh:";
    hide Refused, Prefixed, AtColon;
    NoSecondColonIn("");
  }

  lemma NoColon(s: string)
    requires ':' !in s
    ensures AtColon(s) == Split(s, false, "")
  {
  }

  /** A name up to the first colon; the pin is all that follows it. */
  lemma BleText(name: string, pin: string, out: Spec)
    requires ':' !in name && name != ""
    ensures Parse("ble:" + name, out) == Some(out.(name := name))
    ensures Parse("ble:" + (name + ":" + pin), out) == Some(out.(name := name, pin := pin))
  {
    hide AtColon;
    ParsePrefixed(Ble, name, out);
    ParsePrefixed(Ble, name + ":" + pin, out);
    assert Prefixed(Ble, name) == "ble:" + name && Prefixed(Ble, name + ":" + pin) == "ble:" + (name + ":" + pin);
    hide Parse, Prefixed;
    NoColon(name);
    AtColonOf(name, pin);
  }

  /** An address of seventeen characters with a pin behind it, or the whole text. */
  lemma AddrText(address: string, pin: string, rest: string, out: Spec)
    requires |address| == 17 && rest != "" && (|rest| > 17 ==> rest[17] != ':')
    ensures Parse("addr:" + rest, out) == Some(out.(address := rest))
    ensures Parse("addr:" + (address + ":" + pin), out) == Some(out.(address := address, pin := pin))
  {
    var both := address + ":" + pin;
    AddrPrefixed(rest, out);
    AddrPrefixed(both, out);
    assert both[..17] == address && both[18..] == pin;
    hide Parse;
    assert ParseRest(Addr, both, out) == out.(address := address, pin := pin);
  }

  lemma AddrPrefixed(rest: string, out: Spec)
    requires rest != ""
    ensures Parse("addr:" + rest, out) == Some(ParseRest(Addr, rest, out))
  {
    ParsePrefixed(Addr, rest, out);
    MainField(Addr, rest, out);
    assert Prefixed(Addr, rest) == "addr:" + rest;
  }

  /** The host is the whole text, colons included. */
  lemma TcpText(host: string, out: Spec)
    requires host != ""
    ensures Parse("tcp:" + host, out) == Some(out.(tcpHost := host))
  {
    ParsePrefixed(Tcp, host, out);
    assert Prefixed(Tcp, host) == "tcp:" + host;
  }

  /** A port up to the first colon, and a baud rate; one that is no positive number is 115200. */
  lemma SerialText(port: string, baud: nat, odd: string, out: Spec)
    requires ':' !in port && port != ""
    requires odd != "" ==> !IsBlank(odd[0]) && !IsDigit(odd[0]) && odd[0] != '+'
    ensures Parse("serial:" + port, out) == Some(out.(serialPort := port))
    ensures Parse("serial:" + (port + ":" + Decimal(baud)), out)
         == Some(out.(serialPort := port, serialBaud := if baud == 0 then 115200 else baud))
    ensures Parse("serial:" + (port + ":" + odd), out) == Some(out.(serialPort := port, serialBaud := 115200))
  {
    hide AtColon;
    var both, other := port + ":" + Decimal(baud), port + ":" + odd;
    ParsePrefixed(Serial, port, out);
    ParsePrefixed(Serial, both, out);
    ParsePrefixed(Serial, other, out);
    assert Prefixed(Serial, port) == "serial:" + port;
    assert Prefixed(Serial, both) == "serial:" + both && Prefixed(Serial, other) == "serial:" + other;
    hide Parse, Prefixed;
    NoColon(port);
    AtColonOf(port, Decimal(baud));
    AtColonOf(port, odd);
    AtoiOfDecimal(baud);
  }

  /** Host and port up to the second colon, a user up to the third, and the rest as password;
      with fewer colons there is no password, no user, or no port. */
  lemma MeshText(host: string, port: string, user: string, password: string, out: Spec)
    requires ':' !in host && ':' !in port && ':' !in user && host != ""
    ensures var hostPort := host + ":" + port;
            && Parse("mesh:" + host, out) == Some(out.(meshHost := host))
            && Parse("mesh:" + hostPort, out) == Some(out.(meshHost := hostPort))
            && Parse("mesh:" + (hostPort + ":" + user), out) == Some(out.(meshHost := hostPort, meshUser := user))
            && Parse("mesh:" + (hostPort + ":" + (user + ":" + password)), out)
               == Some(out.(meshHost := hostPort, meshUser := user, meshPassword := password))
  {
    hide AtColon, AtSecondColon;
    var hostPort, login := host + ":" + port, user + ":" + password;
    MeshPrefixed(host, out);
    MeshPrefixed(hostPort, out);
    MeshPrefixed(hostPort + ":" + user, out);
    MeshPrefixed(hostPort + ":" + login, out);
    hide Parse;
    NoColon(user);
    NoSecondColonIn(host);
    AtColonOf(user, password);
    SecondColonOf(host, port, user);
    SecondColonOf(host, port, login);
  }

  lemma MeshPrefixed(rest: string, out: Spec)
    requires rest != ""
    ensures Parse("mesh:" + rest, out) == Some(ParseRest(Mesh, rest, out))
  {
    ParsePrefixed(Mesh, rest, out);
    MainField(Mesh, rest, out);
    assert Prefixed(Mesh, rest) == "mesh:" + rest;
  }

  lemma NoSecondColonIn(s: string)
    requires ':' !in s
    ensures !AtSecondColon(s).found
  {
    NoColon(s);
  }

  /** Of the transports filled in, the one printed is the first of mesh, tcp, serial, address
      and name; none leaves nothing to print. */
  lemma FormatPrefers(spec: Spec)
    ensures spec.meshHost != "" ==> "mesh:" + spec.meshHost <= Format(spec)
    ensures spec.meshHost == "" && spec.tcpHost != "" ==> Format(spec) == "tcp:" + spec.tcpHost
    ensures spec.meshHost == spec.tcpHost == "" && spec.serialPort != "" ==>
              "serial:" + spec.serialPort + ":" <= Format(spec)
    ensures spec.meshHost == spec.tcpHost == spec.serialPort == "" && spec.address != "" ==>
              "addr:" + spec.address <= Format(spec)
    ensures spec.meshHost == spec.tcpHost == spec.serialPort == spec.address == "" && spec.name != "" ==>
              "ble:" + spec.name <= Format(spec)
    ensures spec.meshHost == spec.tcpHost == spec.serialPort == spec.address == spec.name == "" ==>
              Format(spec) == ""
  {
    assert Prefixed(Tcp, spec.tcpHost) == "tcp:" + spec.tcpHost;
  }

  // ------------------------------------------------------------------ the code

  /** Fill in a record; a refused text may have changed it as well. */
  method ParseDeviceSpec(spec: string, out: Spec) returns (ok: bool, filled: Spec)
    ensures ok <==> Parse(spec, out).Some?
    ensures filled == if ok then Parse(spec, out).value else Refused(spec, out)
  {
    filled := out;
    var colon1 := Find(spec, ':');
    if colon1 == |spec| {
      return false, filled;
    }
    var kind, rest := TypeOf(spec[..colon1]), spec[colon1 + 1..];
    if kind.None? {
      return false, filled;
    }
    filled := FillFields(kind.value, rest, out);
    ok := Principal(kind.value, filled) != "";
  }

  method FillFields(t: Transport, rest: string, out: Spec) returns (filled: Spec)
    ensures filled == ParseRest(t, rest, out)
  {
    filled := out;
    match t {
      case Ble =>
        var colon2 := Find(rest, ':');
        if colon2 < |rest| {
          filled := filled.(name := rest[..colon2]);
          filled := filled.(pin := rest[colon2 + 1..]);
        } else {
          filled := filled.(name := rest);
        }
      case Addr =>
        if |rest| > 17 && rest[17] == ':' {
          filled := filled.(address := rest[..17]);
          filled := filled.(pin := rest[18..]);
        } else {
          filled := filled.(address := rest);
        }
      case Tcp =>
        filled := filled.(tcpHost := rest);
      case Serial =>
        var colon2 := Find(rest, ':');
        if colon2 < |rest| {
          var baud := Atoi(rest[colon2 + 1..]);
          if baud <= 0 {
            baud := DEFAULT_BAUD;
          }
          filled := filled.(serialPort := rest[..colon2], serialBaud := baud);
        } else {
          filled := filled.(serialPort := rest);
        }
      case Mesh =>
        filled := FillMesh(rest, filled);
    }
  }

  method FillMesh(rest: string, out: Spec) returns (filled: Spec)
    ensures filled == ParseRest(Mesh, rest, out)
  {
    hide AtSecondColon, WithLogin, Find, AtColon;
    var colon2 := Find(rest, ':');
    NoSecondColon(rest, colon2);
    if colon2 < |rest| {
      var tail := rest[colon2 + 1..];
      var port := Find(tail, ':');
      SecondColonAt(rest, colon2, tail, port);
      if port < |tail| {
        var colon3 := colon2 + 1 + port;
        filled := FillLogin(tail[port + 1..], out.(meshHost := rest[..colon3]));
        return;
      }
    }
    filled := out.(meshHost := rest);
  }

  method FillLogin(login: string, out: Spec) returns (filled: Spec)
    ensures filled == WithLogin(out, login)
  {
    filled := out;
    var colon4 := Find(login, ':');
    if colon4 < |login| {
      filled := filled.(meshUser := login[..colon4]);
      filled := filled.(meshPassword := login[colon4 + 1..]);
    } else {
      filled := filled.(meshUser := login);
    }
  }

  /** The two colons of a mesh address as positions. */
  lemma NoSecondColon(rest: string, i: nat)
    requires i == Find(rest, ':')
    ensures i == |rest| ==> !AtSecondColon(rest).found
  {
  }

  lemma SecondColonAt(rest: string, i: nat, tail: string, k: nat)
    requires i == Find(rest, ':') && i < |rest|
    requires tail == rest[i + 1..] && k == Find(tail, ':')
    ensures AtSecondColon(rest)
         == if k < |tail| then Split(rest[..i + 1 + k], true, tail[k + 1..]) else Split(rest, false, "")
  {
    assert AtColon(rest).found && AtColon(rest).before == rest[..i] && AtColon(rest).after == tail;
    if k < |tail| {
      assert AtColon(tail).found && AtColon(tail).before == tail[..k] && AtColon(tail).after == tail[k + 1..];
      HostAndPort(rest, i, k);
    } else {
      assert !AtColon(tail).found;
    }
  }

  lemma HostAndPort(s: string, i: nat, k: nat)
    requires i < |s| && i + 1 + k < |s| && s[i] == ':'
    ensures s[..i] + [':'] + s[i + 1..][..k] == s[..i + 1 + k]
  {
  }
}
