/** A reader of JSON texts (RFC 8259) and of UTF-8 (RFC 3629), defined without the canonical printer:
    what scripts/acceptance/release_contract_v2.py prints is the JSON text of the value. Numbers are
    read as far as the printer's domain goes, which has integers only. */
module JsonReader {
  import opened Wrappers
  import opened Sequences
  import opened CanonicalJson

  datatype Parsed<T> = Fail | Got(value: T, rest: string)

  // ---------- Reading JSON ----------

  /** White space, section 2 of RFC 8259. */
  predicate IsSpace(c: char) {
    c == ' ' || c == '\t' || c == '\n' || c == '\r'
  }

  function SkipSpace(s: string): (r: string)
    ensures |r| <= |s|
  {
    if s != "" && IsSpace(s[0]) then SkipSpace(s[1..]) else s
  }

  /** A literal name, section 3. */
  function ReadLiteral(s: string, name: string, v: Value): (r: Parsed<Value>)
    ensures r.Got? && name != "" ==> |r.rest| < |s|
  {
    if name <= s then Got(v, s[|name|..]) else Fail
  }

  function DigitRun(s: string): (n: nat)
    ensures n <= |s|
  {
    if s != "" && IsDigit(s[0]) then 1 + DigitRun(s[1..]) else 0
  }

  /** A number without sign, fraction and exponent, section 6: no superfluous leading zero. */
  function ReadNatural(s: string): (r: Parsed<int>)
    ensures r.Got? ==> |r.rest| < |s|
  {
    var n := DigitRun(s);
    if n == 0 || (n > 1 && s[0] == '0') then Fail
    else if n < |s| && (s[n] == '.' || s[n] == 'e' || s[n] == 'E') then Fail
    else Got(ReadDigits(s[..n]), s[n..])
  }

  function ReadInteger(s: string): (r: Parsed<Value>)
    ensures r.Got? ==> |r.rest| < |s|
  {
    if s != "" && s[0] == '-' then
      var p := ReadNatural(s[1..]);
      if p.Fail? then Fail else Got(Int(-p.value), p.rest)
    else
      var p := ReadNatural(s);
      if p.Fail? then Fail else Got(Int(p.value), p.rest)
  }

  predicate IsHex(c: char) {
    '0' <= c <= '9' || 'a' <= c <= 'f' || 'A' <= c <= 'F'
  }

  function HexValue(c: char): (n: nat)
    requires IsHex(c)
    ensures n < 16
  {
    if c <= '9' then c as int - '0' as int
    else if c <= 'F' then c as int - 'A' as int + 10
    else c as int - 'a' as int + 10
  }

  /** The code unit of an escape, from its four hexadecimal digits. */
  function ReadUnit(s: string): Option<nat> {
    if |s| >= 4 && IsHex(s[0]) && IsHex(s[1]) && IsHex(s[2]) && IsHex(s[3])
    then Some(HexValue(s[0]) * 0x1000 + HexValue(s[1]) * 0x100 + HexValue(s[2]) * 0x10 + HexValue(s[3]))
    else None
  }

  /** The character after a backslash, section 7. */
  function ReadEscape(s: string): (r: Parsed<char>)
    ensures r.Got? ==> |r.rest| < |s|
  {
    if s == "" then Fail
    else match s[0]
      case '\"' => Got('\"', s[1..])
      case '\\' => Got('\\', s[1..])
      case '/' => Got('/', s[1..])
      case 'b' => Got(0x08 as char, s[1..])
      case 'f' => Got(0x0C as char, s[1..])
      case 'n' => Got('\n', s[1..])
      case 'r' => Got('\r', s[1..])
      case 't' => Got('\t', s[1..])
      case 'u' => ReadUnicode(s[1..])
      case _ => Fail
  }

  /** A character as one code unit, or as a pair of surrogates. */
  function ReadUnicode(s: string): (r: Parsed<char>)
    ensures r.Got? ==> |r.rest| < |s|
  {
    match ReadUnit(s)
    case None => Fail
    case Some(n) =>
      if n < 0xD800 || 0xE000 <= n < 0x10000 then Got(n as char, s[4..])
      else if 0xD800 <= n < 0xDC00 && |s| >= 10 && s[4] == '\\' && s[5] == 'u' then
        match ReadUnit(s[6..])
        case None => Fail
        case Some(m) =>
          if 0xDC00 <= m < 0xE000 then Got((0x10000 + (n - 0xD800) * 0x400 + (m - 0xDC00)) as char, s[10..]) else Fail
      else Fail
  }

  /** The characters of a string up to its closing quote. */
  function ReadChars(s: string): (r: Parsed<string>)
    ensures r.Got? ==> |r.rest| < |s|
    decreases |s|
  {
    if s == "" || s[0] as int < 0x20 then Fail
    else if s[0] == '\"' then Got("", s[1..])
    else
      var first := if s[0] == '\\' then ReadEscape(s[1..]) else Got(s[0], s[1..]);
      if first.Fail? then Fail else Prepend(first.value, ReadChars(first.rest))
  }

  function Prepend(c: char, p: Parsed<string>): (r: Parsed<string>)
    ensures r.Got? <==> p.Got?
    ensures p.Got? ==> r.rest == p.rest
  {
    if p.Fail? then Fail else Got([c] + p.value, p.rest)
  }

  function ReadValue(s: string): (r: Parsed<Value>)
    ensures r.Got? ==> |r.rest| < |s|
    decreases |s|, 0
  {
    var t := SkipSpace(s);
    if t == "" then Fail
    else if t[0] == 'n' then ReadLiteral(t, "null", Null)
    else if t[0] == 't' then ReadLiteral(t, "true", Bool(true))
    else if t[0] == 'f' then ReadLiteral(t, "false", Bool(false))
    else if t[0] == '\"' then
      var p := ReadChars(t[1..]);
      if p.Fail? then Fail else Got(Str(p.value), p.rest)
    else if t[0] == '[' then ReadArray(t[1..])
    else if t[0] == '{' then ReadObject(t[1..])
    else ReadInteger(t)
  }

  /** An array after its opening bracket, section 5. */
  function ReadArray(s: string): (r: Parsed<Value>)
    ensures r.Got? ==> |r.rest| < |s|
    decreases |s|, 2
  {
    var t := SkipSpace(s);
    if t != "" && t[0] == ']' then Got(Arr([]), t[1..])
    else
      var p := ReadItems(t);
      if p.Fail? then Fail else Got(Arr(p.value), p.rest)
  }

  function ReadItems(s: string): (r: Parsed<seq<Value>>)
    ensures r.Got? ==> |r.rest| < |s|
    decreases |s|, 1
  {
    var first := ReadValue(s);
    if first.Fail? then Fail
    else
      var t := SkipSpace(first.rest);
      if t == "" then Fail
      else if t[0] == ']' then Got([first.value], t[1..])
      else if t[0] != ',' then Fail
      else
        var others := ReadItems(t[1..]);
        if others.Fail? then Fail else Got([first.value] + others.value, others.rest)
  }

  /** An object after its opening brace, section 4; of members with the same name the last counts. */
  function ReadObject(s: string): (r: Parsed<Value>)
    ensures r.Got? ==> |r.rest| < |s|
    decreases |s|, 2
  {
    var t := SkipSpace(s);
    if t != "" && t[0] == '}' then Got(Obj(map[]), t[1..])
    else
      var p := ReadMembers(t);
      if p.Fail? then Fail else Got(Obj(p.value), p.rest)
  }

  function ReadMembers(s: string): (r: Parsed<map<string, Value>>)
    ensures r.Got? ==> |r.rest| < |s|
    decreases |s|, 1
  {
    var t := SkipSpace(s);
    if t == "" || t[0] != '\"' then Fail
    else
      var key := ReadChars(t[1..]);
      if key.Fail? then Fail
      else
        var u := SkipSpace(key.rest);
        if u == "" || u[0] != ':' then Fail
        else
          var first := ReadValue(u[1..]);
          if first.Fail? then Fail else ReadMoreMembers(map[key.value := first.value], first.rest)
  }

  /** What follows a member: the closing brace, or a comma and more members. */
  function ReadMoreMembers(member: map<string, Value>, s: string): (r: Parsed<map<string, Value>>)
    ensures r.Got? ==> |r.rest| < |s|
    decreases |s|, 2
  {
    var t := SkipSpace(s);
    if t == "" then Fail
    else if t[0] == '}' then Got(member, t[1..])
    else if t[0] != ',' then Fail
    else
      var others := ReadMembers(t[1..]);
      if others.Fail? then Fail else Got(member + others.value, others.rest)
  }

  /** A whole text, with nothing but white space after the value. */
  function Read(text: string): Option<Value> {
    var p := ReadValue(text);
    if p.Got? && SkipSpace(p.rest) == "" then Some(p.value) else None
  }

  // ---------- What the printer prints is read back ----------

  /** What follows a printed value: nothing, a comma or a closing bracket. */
  predicate Delimited(rest: string) {
    rest == "" || rest[0] == ',' || rest[0] == ']' || rest[0] == '}'
  }

  lemma {:induction false} DigitRunOf(digits: string, rest: string)
    requires (forall c | c in digits :: IsDigit(c)) && Ends(rest)
    ensures DigitRun(digits + rest) == |digits|
  {
    if digits == "" {
      assert digits + rest == rest;
    } else {
      assert (digits + rest)[0] == digits[0] && (digits + rest)[1..] == digits[1..] + rest;
      DigitRunOf(digits[1..], rest);
    }
  }

  lemma {:induction false} NoLeadingZero(n: nat)
    ensures |Digits(n)| >= 1 && (|Digits(n)| > 1 ==> Digits(n)[0] != '0')
    ensures n > 0 ==> Digits(n)[0] != '0'
  {
    if n >= 10 {
      NoLeadingZero(n / 10);
      assert Digits(n)[0] == Digits(n / 10)[0];
    }
  }

  lemma NaturalReadsBack(n: nat, rest: string)
    requires Delimited(rest)
    ensures ReadNatural(Digits(n) + rest) == Got(n, rest)
    ensures Digits(n) + rest != "" && (Digits(n) + rest)[0] != '-'
  {
    var digits := Digits(n);
    DigitsRead(n);
    NoLeadingZero(n);
    DigitRunOf(digits, rest);
    assert (digits + rest)[..|digits|] == digits && (digits + rest)[|digits|..] == rest;
    assert (digits + rest)[0] == digits[0] && digits[0] in digits;
    assert |digits| < |digits + rest| ==> (digits + rest)[|digits|] == rest[0];
  }

  lemma IntegerReadsBack(i: int, rest: string)
    requires Delimited(rest)
    ensures ReadInteger(Decimal(i) + rest) == Got(Int(i), rest)
  {
    NaturalReadsBack(if i < 0 then -i else i, rest);
    if i < 0 {
      var s := Decimal(i) + rest;
      assert s[0] == '-' && s[1..] == Digits(-i) + rest;
    }
  }

  lemma EscapeReadsBack(c: char, u: string)
    ensures ReadChars(Escape(c) + u) == Prepend(c, ReadChars(u))
  {
    var s := Escape(c) + u;
    EscapeShape(c);
    Head(Escape(c), u);
    if |Escape(c)| == 1 {
      assert s[1..] == u;
    } else if |Escape(c)| == 2 {
      assert s[1..][0] == Escape(c)[1] && s[1..][1..] == u;
    } else {
      ControlReadsBack(c, u);
    }
  }

  lemma HexReadsBack(d: nat)
    requires d < 16
    ensures IsHex(HexDigit(d)) && HexValue(HexDigit(d)) == d
  {
  }

  lemma ControlReadsBack(c: char, u: string)
    requires |Escape(c)| == 6
    ensures ReadChars(Escape(c) + u) == Prepend(c, ReadChars(u))
  {
    var s := Escape(c) + u;
    var t := s[2..];
    assert s[0] == '\\' && s[1] == 'u' && s[1..][0] == 'u' && s[1..][1..] == t;
    assert t[0] == '0' && t[1] == '0' && t[2] == Escape(c)[4] && t[3] == Escape(c)[5] && t[4..] == u;
    HexReadsBack(c as int / 16);
    HexReadsBack(c as int % 16);
    assert ReadUnit(t) == Some(c as int);
  }

  lemma {:induction false} StringReadsBack(s: string, rest: string)
    ensures ReadChars(Quoted(s, rest)) == Got(s, rest)
  {
    QuotedShape(s, rest);
    if s != "" {
      StringReadsBack(s[1..], rest);
      EscapeReadsBack(s[0], Quoted(s[1..], rest));
      assert s == [s[0]] + s[1..];
    } else {
      assert Quoted(s, rest)[1..] == rest;
    }
  }

  lemma LiteralReadsBack(name: string, rest: string, v: Value)
    ensures ReadLiteral(name + rest, name, v) == Got(v, rest)
  {
  }

  /** No printed value begins with white space. */
  lemma NoSpace(v: Value, rest: string)
    requires Jcs(v).Success?
    ensures SkipSpace(Jcs(v).value + rest) == Jcs(v).value + rest && Jcs(v).value + rest != ""
  {
    FirstCharacter(v, rest);
  }

  lemma {:induction false} ValueReadsBack(v: Value, rest: string)
    requires Jcs(v).Success? && Delimited(rest)
    ensures ReadValue(Jcs(v).value + rest) == Got(v, rest)
    decreases v, 2
  {
    var s := Jcs(v).value + rest;
    NoSpace(v, rest);
    FirstCharacter(v, rest);
    match v
    case Null => LiteralReadsBack("null", rest, v);
    case Bool(b) => LiteralReadsBack(if b then "true" else "false", rest, v);
    case Int(i) => IntegerReadsBack(i, rest);
    case Str(x) =>
      QuoteIsQuoted(x, rest);
      assert s[1..] == Quoted(x, rest);
      StringReadsBack(x, rest);
    case Arr(_) => ArrayReadsBack(v, rest);
    case Obj(_) => ObjectReadsBack(v, rest);
  }

  lemma {:induction false} ArrayReadsBack(v: Value, rest: string)
    requires v.Arr? && Jcs(v).Success? && Delimited(rest)
    ensures ReadArray((Jcs(v).value + rest)[1..]) == Got(v, rest)
    decreases v, 1
  {
    var inside := ArrayShape(v, rest);
    assert (Jcs(v).value + rest)[1..] == inside;
    if v.items == [] {
      assert inside[1..] == rest;
    } else {
      NoSpace(v.items[0], ItemsTail(v, 1, rest));
      ItemsReadBack(v, 0, rest);
      assert v.items[0..] == v.items;
    }
  }

  lemma {:induction false} ItemsReadBack(v: Value, k: nat, rest: string)
    requires v.Arr? && k < |v.items| && JcsItems(v, k).Success? && Delimited(rest)
    ensures ReadItems(Jcs(v.items[k]).value + ItemsTail(v, k + 1, rest)) == Got(v.items[k..], rest)
    decreases v, 0, |v.items| - k
  {
    var tail := ItemsTail(v, k + 1, rest);
    ItemsTailShape(v, k + 1, rest);
    ValueReadsBack(v.items[k], tail);
    if k + 1 == |v.items| {
      assert tail[1..] == rest;
      assert v.items[k..] == [v.items[k]];
    } else {
      ItemsReadBack(v, k + 1, rest);
      assert tail[1..] == Jcs(v.items[k + 1]).value + ItemsTail(v, k + 2, rest);
      assert v.items[k..] == [v.items[k]] + v.items[k + 1..];
    }
  }

  lemma {:induction false} ObjectReadsBack(v: Value, rest: string)
    requires v.Obj? && Jcs(v).Success? && Delimited(rest)
    ensures ReadObject((Jcs(v).value + rest)[1..]) == Got(v, rest)
    decreases v, 1
  {
    var inside := ObjectShape(v, rest);
    assert (Jcs(v).value + rest)[1..] == inside;
    var keys := SortedKeys(v.fields.Keys);
    if v.fields == map[] {
      assert inside[1..] == rest;
    } else {
      assert forall k | k in keys :: k in Elements(keys);
      QuoteStarts(keys[0], [':'] + (Jcs(v.fields[keys[0]]).value + MembersTail(v, keys[1..], rest)));
      MembersReadBack(v, keys, rest);
      assert forall k :: k in keys <==> k in Elements(keys);
      assert (map k | k in keys :: v.fields[k]) == v.fields;
    }
  }

  lemma {:induction false} MembersReadBack(v: Value, keys: seq<string>, rest: string)
    requires v.Obj? && keys != [] && (forall k | k in keys :: k in v.fields) && JcsMembers(v, keys).Success?
    requires Delimited(rest)
    ensures ReadMembers(MemberThen(v, keys, rest)) == Got(map k | k in keys :: v.fields[k], rest)
    decreases v, 0, |keys|
  {
    var value, tail := v.fields[keys[0]], MembersTail(v, keys[1..], rest);
    MembersTailShape(v, keys[1..], rest);
    ValueReadsBack(value, tail);
    MemberReadsBack(keys[0], Jcs(value).value, value, tail);
    if keys[1..] != [] {
      MembersReadBack(v, keys[1..], rest);
      assert tail[1..] == MemberThen(v, keys[1..], rest);
    } else {
      assert tail[1..] == rest;
    }
    KeysFrom(v.fields, keys);
  }

  lemma KeysFrom(fields: map<string, Value>, keys: seq<string>)
    requires keys != [] && forall k | k in keys :: k in fields
    ensures map[keys[0] := fields[keys[0]]] + (map k | k in keys[1..] :: fields[k]) == map k | k in keys :: fields[k]
    ensures keys[1..] == [] ==> map[keys[0] := fields[keys[0]]] == map k | k in keys :: fields[k]
  {
    assert keys == [keys[0]] + keys[1..];
  }

  lemma MemberReadsBack(key: string, text: string, value: Value, tail: string)
    requires ReadValue(text + tail) == Got(value, tail)
    ensures ReadMembers(Quote(key) + ([':'] + (text + tail))) == ReadMoreMembers(map[key := value], tail)
  {
    var after := [':'] + (text + tail);
    KeyReadsBack(key, after);
    assert after[1..] == text + tail;
  }

  lemma KeyReadsBack(key: string, after: string)
    ensures var s := Quote(key) + after;
            s != "" && s[0] == '\"' && SkipSpace(s) == s && ReadChars(s[1..]) == Got(key, after)
  {
    QuoteIsQuoted(key, after);
    assert (Quote(key) + after)[1..] == Quoted(key, after);
    StringReadsBack(key, after);
  }

  /** What is printed of an accepted value is a JSON text, and it is read as that value. */
  lemma PrintThenRead(v: Value)
    requires Accepted(v)
    ensures Jcs(v).Success? && Read(Jcs(v).value) == Some(v)
  {
    JcsDomain(v);
    ValueReadsBack(v, "");
    assert Jcs(v).value + "" == Jcs(v).value;
  }

  /** The accepted integers are those of section 3.2.2.3 of RFC 8785: up to 2^53 - 1 in size. */
  lemma IntegerDomain(i: int)
    ensures Jcs(Int(i)).Success? <==> -9007199254740991 <= i <= 9007199254740991
  {
  }

  // ---------- Reading UTF-8 ----------

  predicate IsTail(bytes: seq<nat>, k: nat) {
    k < |bytes| && 0x80 <= bytes[k] < 0xC0
  }

  /** The length of the sequence that a first byte announces, section 4 of RFC 3629. */
  function Announced(first: nat): nat {
    if first < 0x80 then 1
    else if 0xC2 <= first < 0xE0 then 2
    else if 0xE0 <= first < 0xF0 then 3
    else if 0xF0 <= first < 0xF5 then 4
    else 0
  }

  /** The code point of the first sequence, when it is well formed and as short as it can be. */
  function FirstCode(bytes: seq<nat>): Option<nat>
    requires bytes != []
  {
    match Announced(bytes[0])
    case 1 => Some(bytes[0])
    case 2 =>
      if IsTail(bytes, 1) then Some((bytes[0] - 0xC0) * 0x40 + (bytes[1] - 0x80)) else None
    case 3 =>
      if IsTail(bytes, 1) && IsTail(bytes, 2) then
        var n := (bytes[0] - 0xE0) * 0x1000 + (bytes[1] - 0x80) * 0x40 + (bytes[2] - 0x80);
        if n >= 0x800 then Some(n) else None
      else None
    case 4 =>
      if IsTail(bytes, 1) && IsTail(bytes, 2) && IsTail(bytes, 3) then
        var n := (bytes[0] - 0xF0) * 0x40000 + (bytes[1] - 0x80) * 0x1000
                 + (bytes[2] - 0x80) * 0x40 + (bytes[3] - 0x80);
        if n >= 0x10000 then Some(n) else None
      else None
    case _ => None
  }

  predicate IsCharacter(n: nat) {
    n < 0xD800 || 0xE000 <= n < 0x11_0000
  }

  function Decode(bytes: seq<nat>): Option<string>
    decreases |bytes|
  {
    if bytes == [] then Some("")
    else
      var n, length := FirstCode(bytes), Announced(bytes[0]);
      if n.None? || !IsCharacter(n.value) || length > |bytes| then None
      else
        var others := if length == 0 then None else Decode(bytes[length..]);
        if others.None? then None else Some([n.value as char] + others.value)
  }

  lemma CharacterReadsBack(c: char, u: seq<nat>)
    ensures var bytes := Utf8Char(c) + u;
            && bytes != [] && FirstCode(bytes) == Some(c as int) && Announced(bytes[0]) == |Utf8Char(c)|
            && IsCharacter(c as int)
  {
    var n, bytes := c as int, Utf8Char(c) + u;
    assert forall k | 0 <= k < |Utf8Char(c)| :: bytes[k] == Utf8Char(c)[k];
    SixBits(n);
  }

  lemma {:induction false} Utf8ReadsBack(s: string)
    ensures Decode(Utf8(s)) == Some(s)
  {
    if s != "" {
      Utf8ReadsBack(s[1..]);
      CharacterReadsBack(s[0], Utf8(s[1..]));
      assert (Utf8Char(s[0]) + Utf8(s[1..]))[|Utf8Char(s[0])|..] == Utf8(s[1..]);
      assert s == [s[0]] + s[1..];
    }
  }

  /** The canonical bytes of an accepted value are the UTF-8 of a JSON text that is read as the value. */
  lemma BytesReadBack(v: Value)
    requires Accepted(v)
    ensures JcsBytes(v).Success? && Decode(JcsBytes(v).value).Some?
    ensures Read(Decode(JcsBytes(v).value).value) == Some(v)
  {
    PrintThenRead(v);
    Utf8ReadsBack(Jcs(v).value);
  }
}
