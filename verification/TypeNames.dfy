/** Type names and printed type hashes (crates/rmw-zenoh-rs/src/type_support.rs:85-91, 163-195,
    258-264). */
module TypeNames {
  import opened Common

  // ---- Strings

  /** `str::replace("::", "/")`: left to right, without overlaps. */
  function Replace(s: string): string {
    if s == "" then ""
    else if |s| >= 2 && s[0] == ':' && s[1] == ':' then "/" + Replace(s[2..])
    else [s[0]] + Replace(s[1..])
  }

  function Join(parts: seq<string>, separator: string): string
    requires parts != []
  {
    if |parts| == 1 then parts[0] else parts[0] + separator + Join(parts[1..], separator)
  }

  /** The parts between the slashes. */
  function Split(s: string): (parts: seq<string>)
    ensures parts != []
  {
    if s == "" then [""]
    else
      var rest := Split(s[1..]);
      if s[0] == '/' then [""] + rest else [[s[0]] + rest[0]] + rest[1..]
  }

  /** No double colon survives, whatever the string. */
  lemma {:induction false} ReplaceLeavesNoSeparator(s: string)
    ensures forall i :: 0 <= i < |Replace(s)| - 1 ==> !(Replace(s)[i] == ':' && Replace(s)[i + 1] == ':')
    ensures Replace(s) != "" && Replace(s)[0] == ':' ==> s[0] == ':'
    ensures Replace(s) == "" <==> s == ""
  {
    if s == "" {
    } else if |s| >= 2 && s[0] == ':' && s[1] == ':' {
      ReplaceLeavesNoSeparator(s[2..]);
    } else {
      ReplaceLeavesNoSeparator(s[1..]);
      var rest := Replace(s[1..]);
      assert rest != "" && rest[0] == ':' ==> s[1..][0] == ':';
    }
  }

  lemma {:induction false} ReplaceAfter(part: string, rest: string)
    requires ':' !in part
    ensures Replace(part + rest) == part + Replace(rest)
  {
    if part == "" {
      assert part + rest == rest;
    } else {
      assert (part + rest)[1..] == part[1..] + rest;
      ReplaceAfter(part[1..], rest);
    }
  }

  lemma ReplaceHead(rest: string)
    ensures Replace("::" + rest) == "/" + Replace(rest)
    ensures rest == "" || rest[0] != ':' ==> Replace(":" + rest) == ":" + Replace(rest)
  {
    assert ("::" + rest)[2..] == rest && (":" + rest)[1..] == rest;
  }

  /** The first double colon becomes a slash and what follows it is treated alike; a single colon
      before it stays. */
  lemma ReplaceFirst(part: string, rest: string)
    requires ':' !in part
    ensures Replace(part + ("::" + rest)) == part + ("/" + Replace(rest))
    ensures rest == "" || rest[0] != ':' ==> Replace(part + (":" + rest)) == part + (":" + Replace(rest))
  {
    ReplaceAfter(part, "::" + rest);
    ReplaceAfter(part, ":" + rest);
    ReplaceHead(rest);
  }

  predicate Without(parts: seq<string>, c: char) {
    forall p :: p in parts ==> c !in p
  }

  /** Colon-free parts keep their order and change only their separator. */
  lemma {:induction false} ReplaceJoins(parts: seq<string>)
    requires parts != [] && Without(parts, ':')
    ensures Replace(Join(parts, "::")) == Join(parts, "/")
  {
    assert parts[0] in parts;
    if |parts| == 1 {
      ReplaceAfter(parts[0], "");
      assert parts[0] + "" == parts[0];
    } else {
      var rest := Join(parts[1..], "::");
      ReplaceFirst(parts[0], rest);
      assert parts[0] + "::" + rest == parts[0] + ("::" + rest);
      assert Without(parts[1..], ':');
      ReplaceJoins(parts[1..]);
      assert parts[0] + ("/" + Replace(rest)) == parts[0] + "/" + Replace(rest);
    }
  }

  lemma {:induction false} SplitAfter(part: string, rest: string)
    requires '/' !in part
    ensures Split(part + rest) == [part + Split(rest)[0]] + Split(rest)[1..]
  {
    if part == "" {
      assert part + rest == rest && part + Split(rest)[0] == Split(rest)[0];
    } else {
      assert part[0] in part && (part + rest)[0] == part[0];
      assert (part + rest)[1..] == part[1..] + rest;
      SplitAfter(part[1..], rest);
      assert [part[0]] + (part[1..] + Split(rest)[0]) == part + Split(rest)[0];
    }
  }

  /** Splitting undoes joining, so slash-free parts can be read back. */
  lemma {:induction false} SplitUndoesJoin(parts: seq<string>)
    requires parts != [] && Without(parts, '/')
    ensures Split(Join(parts, "/")) == parts
  {
    assert parts[0] in parts;
    if |parts| == 1 {
      SplitAfter(parts[0], "");
      assert parts[0] + "" == parts[0];
    } else {
      var rest := Join(parts[1..], "/");
      SplitAfter(parts[0], "/" + rest);
      assert parts[0] + "/" + rest == parts[0] + ("/" + rest);
      assert ("/" + rest)[1..] == rest;
      assert Split("/" + rest) == [""] + Split(rest) && parts[0] + "" == parts[0];
      assert Without(parts[1..], '/');
      SplitUndoesJoin(parts[1..]);
    }
  }

  lemma {:induction false} JoinSnoc(parts: seq<string>, last: string, separator: string)
    requires parts != []
    ensures Join(parts + [last], separator) == Join(parts, separator) + separator + last
  {
    if |parts| > 1 {
      assert (parts + [last])[1..] == parts[1..] + [last];
      JoinSnoc(parts[1..], last, separator);
    }
  }

  lemma {:induction false} JoinNonempty(parts: seq<string>, separator: string)
    requires parts != [] && parts[0] != ""
    ensures Join(parts, separator) != ""
  {
  }

  // ---- Names

  /** A C++ identifier, as far as this module cares. */
  predicate IsIdentifier(s: string) {
    s != "" && ':' !in s && '/' !in s
  }

  predicate AreIdentifiers(parts: seq<string>) {
    forall p :: p in parts ==> IsIdentifier(p)
  }

  /** The namespace that the generated type support reports for nested namespaces, outermost first. */
  function Namespace(parts: seq<string>): string {
    if parts == [] then "" else Join(parts, "::")
  }

  /** `name.strip_suffix('_').unwrap_or(&name)`. */
  function StripUnderscore(name: string): string {
    if name != "" && name[|name| - 1] == '_' then name[..|name| - 1] else name
  }

  /** `get_ros_type_name`. */
  function RosTypeName(namespace: string, name: string): string {
    if namespace == "" then StripUnderscore(name)
    else Replace(namespace) + "/" + StripUnderscore(name)
  }

  /** `get_type_prefix`. */
  function TypePrefix(namespace: string, name: string): string {
    (if namespace == "" then "" else namespace + "::") + "dds_::" + name + "_"
  }

  /** The ROS name is the namespace parts and the name without its mangling, joined by slashes. */
  lemma RosTypeNameJoins(parts: seq<string>, name: string)
    requires AreIdentifiers(parts)
    ensures RosTypeName(Namespace(parts), name) == Join(parts + [StripUnderscore(name)], "/")
  {
    if parts == [] {
      assert parts + [StripUnderscore(name)] == [StripUnderscore(name)];
    } else {
      assert IsIdentifier(parts[0]);
      JoinNonempty(parts, "::");
      ReplaceJoins(parts);
      JoinSnoc(parts, StripUnderscore(name), "/");
    }
  }

  /** One trailing underscore is mangling and goes; a name without one stays as it is. */
  lemma RosTypeNameIs(parts: seq<string>, name: string)
    requires AreIdentifiers(parts)
    ensures RosTypeName(Namespace(parts), name + "_") == Join(parts + [name], "/")
    ensures name == "" || name[|name| - 1] != '_' ==>
              RosTypeName(Namespace(parts), name) == Join(parts + [name], "/")
  {
    RosTypeNameJoins(parts, name + "_");
    RosTypeNameJoins(parts, name);
    assert (name + "_")[..|name|] == name;
  }

  /** Two types share a ROS name exactly when they agree on the namespace and on the name up to one
      trailing underscore. */
  lemma RosTypeNamesEqualIff(ps: seq<string>, m: string, qs: seq<string>, n: string)
    requires AreIdentifiers(ps) && AreIdentifiers(qs) && IsIdentifier(m) && IsIdentifier(n)
    ensures RosTypeName(Namespace(ps), m) == RosTypeName(Namespace(qs), n) <==>
              ps == qs && StripUnderscore(m) == StripUnderscore(n)
  {
    RosTypeNameJoins(ps, m);
    RosTypeNameJoins(qs, n);
    var ms, ns := ps + [StripUnderscore(m)], qs + [StripUnderscore(n)];
    SplitUndoesJoin(ms);
    SplitUndoesJoin(ns);
    if RosTypeName(Namespace(ps), m) == RosTypeName(Namespace(qs), n) {
      assert ms == ns;
      assert ms[..|ms| - 1] == ps && ns[..|ns| - 1] == qs && ms[|ms| - 1] == ns[|ns| - 1];
    }
  }

  /** Names that do not end in an underscore are determined by the ROS name. */
  lemma RosTypeNameDetermines(ps: seq<string>, m: string, qs: seq<string>, n: string)
    requires AreIdentifiers(ps) && AreIdentifiers(qs) && IsIdentifier(m) && IsIdentifier(n)
    requires m[|m| - 1] != '_' && n[|n| - 1] != '_'
    requires RosTypeName(Namespace(ps), m) == RosTypeName(Namespace(qs), n)
    ensures ps == qs && m == n
  {
    RosTypeNamesEqualIff(ps, m, qs, n);
  }

  /** The mangled prefix is the namespace parts, `dds_` and the mangled name. */
  lemma TypePrefixJoins(parts: seq<string>, name: string)
    requires AreIdentifiers(parts)
    ensures TypePrefix(Namespace(parts), name) == Join(parts + ["dds_", name + "_"], "::")
  {
    if parts == [] {
      assert parts + ["dds_", name + "_"] == ["dds_", name + "_"];
      assert ["dds_", name + "_"][1..] == [name + "_"];
    } else {
      assert IsIdentifier(parts[0]);
      JoinNonempty(parts, "::");
      JoinSnoc(parts, "dds_", "::");
      JoinSnoc(parts + ["dds_"], name + "_", "::");
      assert parts + ["dds_"] + [name + "_"] == parts + ["dds_", name + "_"];
    }
  }

  /** The mangled prefix determines namespace and name, with or without trailing underscores. */
  lemma TypePrefixDetermines(ps: seq<string>, m: string, qs: seq<string>, n: string)
    requires AreIdentifiers(ps) && AreIdentifiers(qs) && IsIdentifier(m) && IsIdentifier(n)
    requires TypePrefix(Namespace(ps), m) == TypePrefix(Namespace(qs), n)
    ensures ps == qs && m == n
  {
    var ms, ns := ps + ["dds_", m + "_"], qs + ["dds_", n + "_"];
    TypePrefixJoins(ps, m);
    TypePrefixJoins(qs, n);
    ReplaceJoins(ms);
    ReplaceJoins(ns);
    SplitUndoesJoin(ms);
    SplitUndoesJoin(ns);
    assert ms == ns;
    assert ms[..|ms| - 2] == ps && ns[..|ns| - 2] == qs;
    assert (m + "_")[..|m|] == m && (n + "_")[..|n|] == n;
    assert ms[|ms| - 1] == m + "_" && ns[|ns| - 1] == n + "_";
  }

  // ---- Services

  const RESPONSE := "_Response"

  predicate EndsWith(s: string, suffix: string) {
    |s| >= |suffix| && s[|s| - |suffix|..] == suffix
  }

  /** `ServiceTypeSupport::get_type_info`, from the response type; `None` where it panics. */
  function ServiceTypeName(namespace: string, responseName: string): Option<string> {
    var name := RosTypeName(namespace, responseName);
    if EndsWith(name, RESPONSE) then Some(name[..|name| - |RESPONSE|]) else None
  }

  lemma SuffixOfLast(front: string, last: string)
    ensures EndsWith(front + "/" + last, RESPONSE) <==> EndsWith(last, RESPONSE)
  {
    var s := front + "/" + last;
    if |last| >= |RESPONSE| {
      assert s[|s| - |RESPONSE|..] == last[|last| - |RESPONSE|..];
    } else if |s| >= |RESPONSE| {
      var k := |RESPONSE| - |last| - 1;
      assert s[|s| - |RESPONSE|..][k] == s[|front|] == '/';
      assert RESPONSE[k] != '/';
    }
  }

  lemma EndsWithIff(s: string, suffix: string)
    ensures EndsWith(s, suffix) <==> exists front :: s == front + suffix
  {
    if EndsWith(s, suffix) {
      assert s == s[..|s| - |suffix|] + suffix;
    }
  }

  lemma StrippedResponse(name: string, service: string)
    ensures StripUnderscore(name) == service + "_Response" <==>
              name in [service + "_Response", service + "_Response_"]
  {
    assert name != "" ==> name == name[..|name| - 1] + [name[|name| - 1]];
    assert service + "_Response" + "_" == service + "_Response_";
    assert (service + "_Response")[|service| + 8] == 'e';
    assert (service + "_Response_")[..|service| + 9] == service + "_Response";
  }

  /** The call succeeds exactly for names that end in the response suffix, with or without mangling. */
  lemma ServiceNameExistsIff(namespace: string, responseName: string)
    ensures ServiceTypeName(namespace, responseName).Some? <==>
              exists service :: responseName in [service + "_Response", service + "_Response_"]
  {
    var clean := StripUnderscore(responseName);
    SuffixOfLast(Replace(namespace), clean);
    EndsWithIff(clean, "_Response");
    forall service
      ensures clean == service + "_Response" <==>
                responseName in [service + "_Response", service + "_Response_"]
    {
      StrippedResponse(responseName, service);
    }
  }

  /** For the response type of a service the result is the service's own name. */
  lemma ServiceNameIs(parts: seq<string>, service: string, mangled: bool)
    requires AreIdentifiers(parts)
    ensures ServiceTypeName(Namespace(parts), service + "_Response" + if mangled then "_" else "") ==
              Some(Join(parts + [service], "/"))
  {
    var responseName := service + RESPONSE + if mangled then "_" else "";
    assert StripUnderscore(responseName) == service + RESPONSE;
    RosTypeNameJoins(parts, responseName);
    JoinTail(parts, service, RESPONSE);
    var front := Join(parts + [service], "/");
    assert (front + RESPONSE)[|front|..] == RESPONSE && (front + RESPONSE)[..|front|] == front;
  }

  lemma JoinTail(parts: seq<string>, last: string, tail: string)
    ensures Join(parts + [last + tail], "/") == Join(parts + [last], "/") + tail
  {
    if parts != [] {
      JoinSnoc(parts, last + tail, "/");
      JoinSnoc(parts, last, "/");
      assert Join(parts, "/") + "/" + (last + tail) == Join(parts, "/") + "/" + last + tail;
    }
  }

  // ---- Type hashes

  datatype TypeHash = TypeHash(version: byte, value: seq<byte>)

  const PREFIX := "RIHS01_"

  function Digit(n: int): char
    requires 0 <= n < 16
  {
    if n < 10 then '0' + n as char else 'a' + (n - 10) as char
  }

  /** `{:02x}`. */
  function Hex(b: byte): string {
    [Digit(b / 16), Digit(b % 16)]
  }

  function HexAll(bytes: seq<byte>): (s: string)
    ensures |s| == 2 * |bytes|
  {
    if bytes == [] then "" else Hex(bytes[0]) + HexAll(bytes[1..])
  }

  /** `Display for rosidl_type_hash_t`. */
  function Print(h: TypeHash): string {
    PREFIX + HexAll(h.value)
  }

  function DigitValue(c: char): Option<int> {
    if '0' <= c <= '9' then Some(c as int - '0' as int)
    else if 'a' <= c <= 'f' then Some(c as int - 'a' as int + 10)
    else None
  }

  /** Reads pairs of lower-case hexadecimal digits. */
  function ParseHex(s: string): Option<seq<byte>> {
    if s == "" then Some([])
    else if |s| == 1 then None
    else
      match (DigitValue(s[0]), DigitValue(s[1]), ParseHex(s[2..]))
      case (Some(high), Some(low), Some(rest)) => Some([16 * high + low] + rest)
      case _ => None
  }

  function Parse(s: string): Option<seq<byte>> {
    if PREFIX <= s then ParseHex(s[|PREFIX|..]) else None
  }

  lemma DigitRoundTrip(n: int, c: char)
    requires 0 <= n < 16
    ensures DigitValue(Digit(n)) == Some(n)
    ensures DigitValue(c).Some? ==> 0 <= DigitValue(c).value < 16 && Digit(DigitValue(c).value) == c
  {
  }

  lemma ByteRoundTrip(b: byte)
    ensures 16 * (b / 16) + b % 16 == b && 0 <= b / 16 < 16
  {
  }

  lemma {:induction false} ParseHexUndoesHexAll(bytes: seq<byte>)
    ensures ParseHex(HexAll(bytes)) == Some(bytes)
  {
    if bytes != [] {
      var b, s := bytes[0], HexAll(bytes);
      ByteRoundTrip(b);
      DigitRoundTrip(b / 16, '0');
      DigitRoundTrip(b % 16, '0');
      ParseHexUndoesHexAll(bytes[1..]);
      assert s[0] == Digit(b / 16) && s[1] == Digit(b % 16) && s[2..] == HexAll(bytes[1..]);
      assert [b] + bytes[1..] == bytes;
    }
  }

  lemma PairRoundTrip(high: int, low: int)
    requires 0 <= high < 16 && 0 <= low < 16
    ensures 0 <= 16 * high + low < 256 && Hex(16 * high + low) == [Digit(high), Digit(low)]
  {
    assert (16 * high + low) / 16 == high;
  }

  lemma {:induction false} HexAllUndoesParseHex(s: string)
    requires ParseHex(s).Some?
    ensures HexAll(ParseHex(s).value) == s
  {
    if s != "" {
      var bytes, rest := ParseHex(s).value, ParseHex(s[2..]).value;
      DigitRoundTrip(0, s[0]);
      DigitRoundTrip(0, s[1]);
      PairRoundTrip(DigitValue(s[0]).value, DigitValue(s[1]).value);
      HexAllUndoesParseHex(s[2..]);
      assert bytes[1..] == rest;
      assert [s[0], s[1]] + s[2..] == s;
    }
  }

  /** Printing can be read back, has two digits per byte, and reading accepts nothing else. */
  lemma PrintRoundTrips(h: TypeHash, s: string)
    ensures Parse(Print(h)) == Some(h.value)
    ensures |Print(h)| == 7 + 2 * |h.value|
    ensures Parse(s).Some? ==> forall v: byte :: Print(TypeHash(v, Parse(s).value)) == s
  {
    ParseHexUndoesHexAll(h.value);
    assert Print(h)[|PREFIX|..] == HexAll(h.value);
    if Parse(s).Some? {
      HexAllUndoesParseHex(s[|PREFIX|..]);
      assert s == PREFIX + s[|PREFIX|..];
    }
  }

  lemma {:induction false} HexAllAt(bytes: seq<byte>, i: nat)
    requires i < |bytes|
    ensures HexAll(bytes)[2 * i] == "0123456789abcdef"[bytes[i] / 16]
    ensures HexAll(bytes)[2 * i + 1] == "0123456789abcdef"[bytes[i] % 16]
  {
    if i > 0 {
      HexAllAt(bytes[1..], i - 1);
      assert HexAll(bytes)[2..] == HexAll(bytes[1..]);
    }
  }

  /** The text itself: the prefix, and then the two hexadecimal digits of each byte in order. */
  lemma PrintIs(h: TypeHash)
    ensures |Print(h)| == 7 + 2 * |h.value| && Print(h)[..7] == "RIHS01_"
    ensures forall i :: 0 <= i < |h.value| ==>
              Print(h)[7 + 2 * i..][..2]
              == ["0123456789abcdef"[h.value[i] / 16], "0123456789abcdef"[h.value[i] % 16]]
  {
    forall i | 0 <= i < |h.value|
      ensures Print(h)[7 + 2 * i..][..2]
              == ["0123456789abcdef"[h.value[i] / 16], "0123456789abcdef"[h.value[i] % 16]]
    {
      HexAllAt(h.value, i);
    }
  }

  /** Two hashes print alike exactly when their values agree: the version byte is not printed. */
  lemma PrintsEqualIff(g: TypeHash, h: TypeHash)
    ensures Print(g) == Print(h) <==> g.value == h.value
  {
    PrintRoundTrips(g, "");
    PrintRoundTrips(h, "");
  }
}
