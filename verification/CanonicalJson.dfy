/** The canonical JSON printer of the release contract (scripts/acceptance/release_contract_v2.py),
    a restriction of RFC 8785, and the proof that different values print differently. */
module CanonicalJson {
  import opened Wrappers
  import opened Sequences

  datatype Value =
    | Null
    | Bool(b: bool)
    | Int(i: int)
    | Str(s: string)
    | Arr(items: seq<Value>)
    | Obj(fields: map<string, Value>)
    | Float(number: real)
    | Unsupported

  datatype Error = IntegerOutOfRange | FloatingPoint | UnsupportedType

  const MAX_SAFE: int := 0x1F_FFFF_FFFF_FFFF

  // ---------- Key order ----------

  /** Python's order of strings: by code points, position by position. */
  predicate Less(a: string, b: string) {
    if b == "" then false
    else if a == "" then true
    else a[0] < b[0] || (a[0] == b[0] && Less(a[1..], b[1..]))
  }

  lemma {:induction false} LessTotal(a: string, b: string)
    ensures a == b || Less(a, b) || Less(b, a)
  {
    if a != "" && b != "" && a[0] == b[0] {
      LessTotal(a[1..], b[1..]);
      assert a == [a[0]] + a[1..] && b == [b[0]] + b[1..];
    }
  }

  lemma {:induction false} LessTransitive(a: string, b: string, c: string)
    requires Less(a, b) && Less(b, c)
    ensures Less(a, c)
  {
    if a != "" && a[0] == b[0] && b[0] == c[0] {
      LessTransitive(a[1..], b[1..], c[1..]);
    }
  }

  lemma {:induction false} LessIrreflexive(a: string)
    ensures !Less(a, a)
  {
    if a != "" {
      LessIrreflexive(a[1..]);
    }
  }

  ghost predicate IsLeast(k: string, keys: set<string>) {
    k in keys && forall x | x in keys :: x == k || Less(k, x)
  }

  lemma LeastExists(keys: set<string>)
    requires keys != {}
    ensures exists k :: IsLeast(k, keys)
    decreases |keys|
  {
    var x :| x in keys;
    var rest := keys - {x};
    if rest == {} {
      assert keys == {x};
      assert IsLeast(x, keys);
    } else {
      LeastExists(rest);
      var k :| IsLeast(k, rest);
      LessTotal(x, k);
      if Less(x, k) {
        forall y | y in keys ensures y == x || Less(x, y) {
          if y != x && y != k {
            LessTransitive(x, k, y);
          }
        }
        assert IsLeast(x, keys);
      } else {
        assert IsLeast(k, keys);
      }
    }
  }

  /** Python's `sorted(value)` for the keys of an object. */
  ghost function SortedKeys(keys: set<string>): (sorted: seq<string>)
    ensures Elements(sorted) == keys
    decreases |keys|
  {
    if keys == {} then []
    else
      LeastExists(keys);
      var k :| IsLeast(k, keys);
      ElementsConcat([k], SortedKeys(keys - {k}));
      [k] + SortedKeys(keys - {k})
  }

  /** The keys come in strictly ascending order, so each of them once. */
  lemma {:induction false} SortedKeysAscend(keys: set<string>, i: nat, j: nat)
    requires i < j < |SortedKeys(keys)|
    ensures Less(SortedKeys(keys)[i], SortedKeys(keys)[j])
    decreases |keys|
  {
    var sorted := SortedKeys(keys);
    var k := sorted[0];
    assert IsLeast(k, keys);
    assert sorted[1..] == SortedKeys(keys - {k});
    if i > 0 {
      SortedKeysAscend(keys - {k}, i - 1, j - 1);
    } else {
      assert sorted[j] == SortedKeys(keys - {k})[j - 1];
      assert sorted[j] in Elements(SortedKeys(keys - {k}));
    }
  }

  // ---------- Printing ----------

  function Digit(d: nat): char
    requires d < 10
  {
    ['0', '1', '2', '3', '4', '5', '6', '7', '8', '9'][d]
  }

  function Digits(n: nat): string {
    if n < 10 then [Digit(n)] else Digits(n / 10) + [Digit(n % 10)]
  }

  /** Python's `str(value)` for an integer. */
  function Decimal(i: int): string {
    if i < 0 then "-" + Digits(-i) else Digits(i)
  }

  function HexDigit(d: nat): char
    requires d < 16
  {
    ['0', '1', '2', '3', '4', '5', '6', '7', '8', '9', 'a', 'b', 'c', 'd', 'e', 'f'][d]
  }

  /** How `json.dumps(..., ensure_ascii=False)` writes one character inside a string. */
  function Escape(c: char): string {
    if c == '\"' then ['\\', '\"']
    else if c == '\\' then ['\\', '\\']
    else if c == '\n' then ['\\', 'n']
    else if c == '\r' then ['\\', 'r']
    else if c == '\t' then ['\\', 't']
    else if c as int == 0x08 then ['\\', 'b']
    else if c as int == 0x0C then ['\\', 'f']
    else if c as int < 0x20 then ['\\', 'u', '0', '0', HexDigit(c as int / 16), HexDigit(c as int % 16)]
    else [c]
  }

  function EscapeAll(s: string): string {
    if s == "" then "" else Escape(s[0]) + EscapeAll(s[1..])
  }

  function Quote(s: string): string {
    ['\"'] + EscapeAll(s) + ['\"']
  }

  /** The values that the printer accepts. */
  predicate Accepted(v: Value) {
    match v
    case Int(i) => -MAX_SAFE <= i <= MAX_SAFE
    case Arr(items) => forall x | x in items :: Accepted(x)
    case Obj(fields) => forall k | k in fields :: Accepted(fields[k])
    case Float(_) => false
    case Unsupported => false
    case _ => true
  }

  ghost function Jcs(v: Value): Result<string, Error>
    decreases v, 1
  {
    match v
    case Null => Success("null")
    case Bool(b) => Success(if b then "true" else "false")
    case Int(i) => if -MAX_SAFE <= i <= MAX_SAFE then Success(Decimal(i)) else Failure(IntegerOutOfRange)
    case Float(_) => Failure(FloatingPoint)
    case Str(s) => Success(Quote(s))
    case Arr(items) =>
      var printed := JcsItems(v, 0);
      if printed.Failure? then Failure(printed.error) else Success("[" + Join(printed.value) + "]")
    case Obj(fields) =>
      var printed := JcsMembers(v, SortedKeys(fields.Keys));
      if printed.Failure? then Failure(printed.error) else Success("{" + Join(printed.value) + "}")
    case Unsupported => Failure(UnsupportedType)
  }

  /** The printed items of an array from index `k` on. */
  ghost function JcsItems(v: Value, k: nat): Result<seq<string>, Error>
    requires v.Arr? && k <= |v.items|
    decreases v, 0, |v.items| - k
  {
    if k == |v.items| then Success([])
    else
      var first := Jcs(v.items[k]);
      if first.Failure? then Failure(first.error)
      else
        var rest := JcsItems(v, k + 1);
        if rest.Failure? then rest else Success([first.value] + rest.value)
  }

  ghost function JcsMembers(v: Value, keys: seq<string>): Result<seq<string>, Error>
    requires v.Obj? && forall k | k in keys :: k in v.fields
    decreases v, 0, |keys|
  {
    if keys == [] then Success([])
    else
      var first := Jcs(v.fields[keys[0]]);
      if first.Failure? then Failure(first.error)
      else
        var rest := JcsMembers(v, keys[1..]);
        if rest.Failure? then rest else Success([Quote(keys[0]) + ":" + first.value] + rest.value)
  }

  function Join(parts: seq<string>): string {
    if parts == [] then "" else parts[0] + JoinTail(parts[1..])
  }

  function JoinTail(parts: seq<string>): string {
    if parts == [] then "" else "," + parts[0] + JoinTail(parts[1..])
  }

  /** The printer fails exactly outside its domain. */
  lemma {:induction false} JcsDomain(v: Value)
    ensures Jcs(v).Success? <==> Accepted(v)
    decreases v, 1
  {
    match v
    case Arr(items) => ItemsDomain(v, 0);
      assert items[0..] == items;
    case Obj(fields) => MembersDomain(v, SortedKeys(fields.Keys));
      assert forall k | k in fields :: k in Elements(SortedKeys(fields.Keys));
    case _ =>
  }

  lemma {:induction false} ItemsDomain(v: Value, k: nat)
    requires v.Arr? && k <= |v.items|
    ensures JcsItems(v, k).Success? <==> forall x | x in v.items[k..] :: Accepted(x)
    decreases v, 0, |v.items| - k
  {
    if k < |v.items| {
      JcsDomain(v.items[k]);
      ItemsDomain(v, k + 1);
      assert v.items[k..] == [v.items[k]] + v.items[k + 1..];
    }
  }

  lemma {:induction false} MembersDomain(v: Value, keys: seq<string>)
    requires v.Obj? && forall k | k in keys :: k in v.fields
    ensures JcsMembers(v, keys).Success? <==> forall k | k in keys :: Accepted(v.fields[k])
    decreases v, 0, |keys|
  {
    if keys != [] {
      JcsDomain(v.fields[keys[0]]);
      MembersDomain(v, keys[1..]);
      assert keys == [keys[0]] + keys[1..];
    }
  }

  // ---------- Numbers and strings can be read back ----------

  lemma Cancel(p: string, u: string, q: string, v: string)
    requires p + u == q + v && |p| == |q|
    ensures p == q && u == v
  {
    assert p == (p + u)[..|p|] && q == (q + v)[..|p|];
    assert u == (p + u)[|p|..] && v == (q + v)[|p|..];
  }

  lemma Head(p: string, u: string)
    requires p != ""
    ensures (p + u)[0] == p[0] && |p + u| > 0
    ensures |p| > 1 ==> |p + u| > 1 && (p + u)[1] == p[1]
  {}

  lemma Assoc(p: string, q: string, u: string)
    ensures (p + q) + u == p + (q + u)
  {}

  predicate IsDigit(c: char) {
    '0' <= c <= '9'
  }

  /** What may follow a printed value: nothing that could continue a number. */
  predicate Ends(rest: string) {
    rest == "" || !IsDigit(rest[0])
  }

  function DigitValue(c: char): int {
    c as int - '0' as int
  }

  function ReadDigits(s: string): int {
    if s == "" then 0 else 10 * ReadDigits(s[..|s| - 1]) + DigitValue(s[|s| - 1])
  }

  lemma {:induction false} DigitsRead(n: nat)
    ensures ReadDigits(Digits(n)) == n && Digits(n) != "" && forall c | c in Digits(n) :: IsDigit(c)
  {
    var s := Digits(n);
    if n < 10 {
      assert s[..0] == "";
    } else {
      DigitsRead(n / 10);
      assert s[..|s| - 1] == Digits(n / 10);
    }
  }

  /** A run of digits is as long as it can be. */
  lemma {:induction false} DigitRunUnique(a: string, b: string, u: string, v: string)
    requires (forall c | c in a :: IsDigit(c)) && (forall c | c in b :: IsDigit(c)) && Ends(u) && Ends(v)
    requires a + u == b + v
    ensures a == b && u == v
  {
    assert a == "" ==> a + u == u;
    assert b == "" ==> b + v == v;
    assert a != "" ==> (a + u)[0] == a[0] && IsDigit(a[0]);
    assert b != "" ==> (b + v)[0] == b[0] && IsDigit(b[0]);
    if a == "" {
      assert b == "";
    } else {
      assert (a + u)[0] == a[0] && (b + v)[0] == b[0];
      assert (a + u)[1..] == a[1..] + u && (b + v)[1..] == b[1..] + v;
      DigitRunUnique(a[1..], b[1..], u, v);
      assert a == [a[0]] + a[1..] && b == [b[0]] + b[1..];
    }
  }

  lemma DecimalShape(i: int)
    ensures i < 0 ==> Decimal(i) == ['-'] + Digits(-i)
    ensures i >= 0 ==> Decimal(i) == Digits(i)
    ensures Decimal(i) != "" && (if i < 0 then Decimal(i)[0] == '-' else IsDigit(Decimal(i)[0]))
  {
    DigitsRead(if i < 0 then -i else i);
  }

  lemma NaturalUnique(m: nat, n: nat, u: string, v: string)
    requires Ends(u) && Ends(v) && Digits(m) + u == Digits(n) + v
    ensures m == n && u == v
  {
    DigitsRead(m);
    DigitsRead(n);
    DigitRunUnique(Digits(m), Digits(n), u, v);
  }

  lemma DecimalUnique(i: int, j: int, u: string, v: string)
    requires Ends(u) && Ends(v) && Decimal(i) + u == Decimal(j) + v
    ensures i == j && u == v
  {
    DecimalShape(i);
    DecimalShape(j);
    Head(Decimal(i), u);
    Head(Decimal(j), v);
    if i < 0 {
      NegativeUnique(-i, -j, u, v);
    } else {
      NaturalUnique(i, j, u, v);
    }
  }

  lemma NegativeUnique(m: nat, n: nat, u: string, v: string)
    requires Ends(u) && Ends(v) && ['-'] + Digits(m) + u == ['-'] + Digits(n) + v
    ensures m == n && u == v
  {
    Assoc(['-'], Digits(m), u);
    Assoc(['-'], Digits(n), v);
    Cancel(['-'], Digits(m) + u, ['-'], Digits(n) + v);
    NaturalUnique(m, n, u, v);
  }

  /** The first characters of an escape tell its length. */
  lemma EscapeShape(c: char)
    ensures Escape(c) != "" && Escape(c)[0] != '\"'
    ensures |Escape(c)| == 1 <==> Escape(c)[0] != '\\'
    ensures |Escape(c)| == 1 || |Escape(c)| == 2 || |Escape(c)| == 6
    ensures |Escape(c)| == 6 <==> |Escape(c)| > 1 && Escape(c)[1] == 'u'
  {}

  lemma EscapeInjective(c: char, d: char)
    requires Escape(c) == Escape(d)
    ensures c == d
  {
    if |Escape(c)| == 6 {
      assert Escape(c)[4] == HexDigit(c as int / 16) && Escape(c)[5] == HexDigit(c as int % 16);
      assert Escape(d)[4] == HexDigit(d as int / 16) && Escape(d)[5] == HexDigit(d as int % 16);
    }
  }

  lemma EscapeUnique(c: char, d: char, u: string, v: string)
    requires Escape(c) + u == Escape(d) + v
    ensures c == d && u == v
  {
    EscapeShape(c);
    EscapeShape(d);
    Head(Escape(c), u);
    Head(Escape(d), v);
    Cancel(Escape(c), u, Escape(d), v);
    EscapeInjective(c, d);
  }

  /** The text of a string after its opening quote, up to and beyond the closing one. */
  function Quoted(s: string, rest: string): string {
    EscapeAll(s) + (['\"'] + rest)
  }

  lemma QuotedShape(s: string, rest: string)
    ensures s == "" ==> Quoted(s, rest) == ['\"'] + rest
    ensures s != "" ==> Quoted(s, rest) == Escape(s[0]) + Quoted(s[1..], rest)
    ensures |Quoted(s, rest)| > 0 && (s == "" <==> Quoted(s, rest)[0] == '\"')
  {
    if s == "" {
      assert EscapeAll(s) + (['\"'] + rest) == ['\"'] + rest;
    } else {
      EscapeShape(s[0]);
      Assoc(Escape(s[0]), EscapeAll(s[1..]), ['\"'] + rest);
      Head(Escape(s[0]), Quoted(s[1..], rest));
    }
  }

  lemma {:induction false} QuotedUnique(s: string, t: string, u: string, v: string)
    requires Quoted(s, u) == Quoted(t, v)
    ensures s == t && u == v
  {
    QuotedShape(s, u);
    QuotedShape(t, v);
    if s == "" {
      Cancel(['\"'], u, ['\"'], v);
    } else {
      EscapeUnique(s[0], t[0], Quoted(s[1..], u), Quoted(t[1..], v));
      QuotedUnique(s[1..], t[1..], u, v);
      assert s == [s[0]] + s[1..] && t == [t[0]] + t[1..];
    }
  }

  lemma QuoteUnique(s: string, t: string, u: string, v: string)
    requires Quote(s) + u == Quote(t) + v
    ensures s == t && u == v
  {
    QuoteIsQuoted(s, u);
    QuoteIsQuoted(t, v);
    Cancel(['\"'], Quoted(s, u), ['\"'], Quoted(t, v));
    QuotedUnique(s, t, u, v);
  }

  lemma QuoteIsQuoted(s: string, u: string)
    ensures Quote(s) + u == ['\"'] + Quoted(s, u)
  {}

  // ---------- Printed values can be read back ----------

  /** The first character of a printed value tells what kind of value it is. */
  predicate Starts(v: Value, c: char) {
    match v
    case Null => c == 'n'
    case Bool(b) => c == if b then 't' else 'f'
    case Int(_) => IsDigit(c) || c == '-'
    case Str(_) => c == '\"'
    case Arr(_) => c == '['
    case Obj(_) => c == '{'
    case _ => false
  }

  lemma FirstCharacter(v: Value, u: string)
    requires Jcs(v).Success?
    ensures |Jcs(v).value + u| > 0 && Starts(v, (Jcs(v).value + u)[0])
  {
    match v
    case Int(i) => DecimalShape(i);
    case _ =>
  }

  /** The items of an array from index `k` on, each after a comma, and the closing bracket. */
  ghost function ItemsTail(v: Value, k: nat, rest: string): string
    requires v.Arr? && k <= |v.items| && JcsItems(v, k).Success?
  {
    JoinTail(JcsItems(v, k).value) + ([']'] + rest)
  }

  lemma ItemsTailShape(v: Value, k: nat, rest: string)
    requires v.Arr? && k <= |v.items| && JcsItems(v, k).Success?
    ensures k == |v.items| ==> ItemsTail(v, k, rest) == [']'] + rest
    ensures k < |v.items| ==>
              && Jcs(v.items[k]).Success? && JcsItems(v, k + 1).Success?
              && ItemsTail(v, k, rest) == [','] + (Jcs(v.items[k]).value + ItemsTail(v, k + 1, rest))
    ensures Ends(ItemsTail(v, k, rest))
  {
    if k == |v.items| {
      assert JoinTail([]) + ([']'] + rest) == [']'] + rest;
    } else {
      var first, tail := Jcs(v.items[k]).value, JcsItems(v, k + 1).value;
      var parts := JcsItems(v, k).value;
      assert parts[0] == first && parts[1..] == tail;
      assert JoinTail(parts) == [','] + first + JoinTail(tail);
      Assoc([','] + first, JoinTail(tail), [']'] + rest);
      Assoc([','], first, JoinTail(tail) + ([']'] + rest));
    }
  }

  /** What follows the opening bracket: the closing one at once, or a first item. */
  lemma ArrayShape(v: Value, rest: string) returns (inside: string)
    requires v.Arr? && Jcs(v).Success?
    ensures Jcs(v).value + rest == ['['] + inside
    ensures inside != "" && (v.items == [] <==> inside[0] == ']')
    ensures JcsItems(v, 0).Success?
    ensures v.items == [] ==> inside == [']'] + rest
    ensures v.items != [] ==>
              && Jcs(v.items[0]).Success? && JcsItems(v, 1).Success?
              && inside == Jcs(v.items[0]).value + ItemsTail(v, 1, rest)
  {
    if v.items == [] {
      inside := [']'] + rest;
      assert Jcs(v).value + rest == ['['] + inside;
    } else {
      var parts, first, tail := JcsItems(v, 0).value, Jcs(v.items[0]).value, JcsItems(v, 1).value;
      inside := first + ItemsTail(v, 1, rest);
      assert parts[0] == first && parts[1..] == tail;
      assert Join(parts) == first + JoinTail(tail);
      assert Jcs(v).value + rest == ['['] + (first + (JoinTail(tail) + ([']'] + rest)));
      FirstCharacter(v.items[0], ItemsTail(v, 1, rest));
    }
  }

  ghost function MembersTail(v: Value, keys: seq<string>, rest: string): string
    requires v.Obj? && (forall k | k in keys :: k in v.fields) && JcsMembers(v, keys).Success?
  {
    JoinTail(JcsMembers(v, keys).value) + (['}'] + rest)
  }

  /** One member and what follows it. */
  ghost function MemberThen(v: Value, keys: seq<string>, rest: string): string
    requires v.Obj? && keys != [] && (forall k | k in keys :: k in v.fields) && JcsMembers(v, keys).Success?
  {
    Quote(keys[0]) + ([':'] + (Jcs(v.fields[keys[0]]).value + MembersTail(v, keys[1..], rest)))
  }

  lemma MembersTailShape(v: Value, keys: seq<string>, rest: string)
    requires v.Obj? && (forall k | k in keys :: k in v.fields) && JcsMembers(v, keys).Success?
    ensures keys == [] ==> MembersTail(v, keys, rest) == ['}'] + rest
    ensures keys != [] ==> MembersTail(v, keys, rest) == [','] + MemberThen(v, keys, rest)
    ensures Ends(MembersTail(v, keys, rest))
  {
    if keys == [] {
      assert JoinTail([]) + (['}'] + rest) == ['}'] + rest;
    } else {
      var first, tail := Jcs(v.fields[keys[0]]).value, JcsMembers(v, keys[1..]).value;
      var parts := JcsMembers(v, keys).value;
      assert parts[0] == Quote(keys[0]) + ":" + first && parts[1..] == tail;
      Regroup([','], Quote(keys[0]), first, JoinTail(tail), ['}'] + rest);
    }
  }

  lemma Regroup(open: string, key: string, value: string, tail: string, end: string)
    ensures open + (key + ":" + value) + tail + end == open + (key + ([':'] + (value + (tail + end))))
  {
    assert ":" == [':'];
    Assoc(open, key + ":" + value, tail + end);
    Assoc(open + (key + ":" + value), tail, end);
    Assoc(key + ":", value, tail + end);
    Assoc(key, ":", value + (tail + end));
  }

  /** What follows the opening brace: the closing one at once, or a first member. */
  lemma ObjectShape(v: Value, rest: string) returns (inside: string)
    requires v.Obj? && Jcs(v).Success?
    ensures Jcs(v).value + rest == ['{'] + inside
    ensures inside != "" && (v.fields == map[] <==> inside[0] == '}')
    ensures JcsMembers(v, SortedKeys(v.fields.Keys)).Success?
    ensures v.fields == map[] ==> inside == ['}'] + rest
    ensures v.fields != map[] ==>
              SortedKeys(v.fields.Keys) != [] && inside == MemberThen(v, SortedKeys(v.fields.Keys), rest)
  {
    var keys := SortedKeys(v.fields.Keys);
    if v.fields == map[] {
      inside := ['}'] + rest;
      assert Jcs(v).value + rest == ['{'] + inside;
    } else {
      assert Elements(keys) == v.fields.Keys;
      inside := MemberThen(v, keys, rest);
      var first, tail := Jcs(v.fields[keys[0]]).value, JcsMembers(v, keys[1..]).value;
      var parts := JcsMembers(v, keys).value;
      assert parts[0] == Quote(keys[0]) + ":" + first && parts[1..] == tail;
      Regroup(['{'], Quote(keys[0]), first, JoinTail(tail), ['}'] + rest);
      Reclose(parts[0], JoinTail(tail), rest);
      QuoteStarts(keys[0], [':'] + (first + MembersTail(v, keys[1..], rest)));
    }
  }

  lemma Reclose(part: string, tail: string, rest: string)
    ensures "{" + (part + tail) + "}" + rest == ['{'] + part + tail + (['}'] + rest)
  {
    assert "{" == ['{'] && "}" == ['}'];
    Assoc(['{'], part, tail);
    Assoc(['{'] + (part + tail), ['}'], rest);
  }

  /** No printed value is the beginning of a different one, whatever may follow. */
  lemma {:induction false} ValueUnique(a: Value, b: Value, u: string, v: string)
    requires Jcs(a).Success? && Jcs(b).Success? && Ends(u) && Ends(v)
    requires Jcs(a).value + u == Jcs(b).value + v
    ensures a == b && u == v
    decreases a, 2
  {
    FirstCharacter(a, u);
    FirstCharacter(b, v);
    match a
    case Null => Cancel("null", u, "null", v);
    case Bool(_) => Cancel(Jcs(a).value, u, Jcs(b).value, v);
    case Int(i) => DecimalUnique(i, b.i, u, v);
    case Str(s) => QuoteUnique(s, b.s, u, v);
    case Arr(_) => ArrayUnique(a, b, u, v);
    case Obj(_) => ObjectUnique(a, b, u, v);
  }

  lemma {:induction false} ArrayUnique(a: Value, b: Value, u: string, v: string)
    requires a.Arr? && b.Arr? && Jcs(a).Success? && Jcs(b).Success? && Ends(u) && Ends(v)
    requires Jcs(a).value + u == Jcs(b).value + v
    ensures a == b && u == v
    decreases a, 1
  {
    var insideA := ArrayShape(a, u);
    var insideB := ArrayShape(b, v);
    Cancel(['['], insideA, ['['], insideB);
    if a.items == [] {
      Cancel([']'], u, [']'], v);
    } else {
      ItemsTailShape(a, 1, u);
      ItemsTailShape(b, 1, v);
      ValueUnique(a.items[0], b.items[0], ItemsTail(a, 1, u), ItemsTail(b, 1, v));
      ItemsUnique(a, 1, b, 1, u, v);
      assert a.items == [a.items[0]] + a.items[1..] && b.items == [b.items[0]] + b.items[1..];
    }
  }

  lemma {:induction false} ItemsUnique(a: Value, i: nat, b: Value, j: nat, u: string, v: string)
    requires a.Arr? && b.Arr? && i <= |a.items| && j <= |b.items| && Ends(u) && Ends(v)
    requires JcsItems(a, i).Success? && JcsItems(b, j).Success? && ItemsTail(a, i, u) == ItemsTail(b, j, v)
    ensures a.items[i..] == b.items[j..] && u == v
    decreases a, 0, |a.items| - i
  {
    ItemsTailShape(a, i, u);
    ItemsTailShape(b, j, v);
    if i == |a.items| {
      assert j == |b.items|;
      Cancel([']'], u, [']'], v);
    } else {
      assert j < |b.items|;
      ItemsTailShape(a, i + 1, u);
      ItemsTailShape(b, j + 1, v);
      Cancel([','], Jcs(a.items[i]).value + ItemsTail(a, i + 1, u),
             [','], Jcs(b.items[j]).value + ItemsTail(b, j + 1, v));
      ValueUnique(a.items[i], b.items[j], ItemsTail(a, i + 1, u), ItemsTail(b, j + 1, v));
      ItemsUnique(a, i + 1, b, j + 1, u, v);
      assert a.items[i..] == [a.items[i]] + a.items[i + 1..] && b.items[j..] == [b.items[j]] + b.items[j + 1..];
    }
  }

  lemma QuoteStarts(s: string, u: string)
    ensures |Quote(s) + u| > 0 && (Quote(s) + u)[0] == '\"'
  {}

  lemma {:induction false} ObjectUnique(a: Value, b: Value, u: string, v: string)
    requires a.Obj? && b.Obj? && Jcs(a).Success? && Jcs(b).Success? && Ends(u) && Ends(v)
    requires Jcs(a).value + u == Jcs(b).value + v
    ensures a == b && u == v
    decreases a, 1
  {
    var insideA := ObjectShape(a, u);
    var insideB := ObjectShape(b, v);
    Cancel(['{'], insideA, ['{'], insideB);
    if a.fields == map[] {
      Cancel(['}'], u, ['}'], v);
    } else {
      var keysA, keysB := SortedKeys(a.fields.Keys), SortedKeys(b.fields.Keys);
      MembersUnique(a, keysA, b, keysB, u, v);
      assert a.fields.Keys == Elements(keysA) == Elements(keysB) == b.fields.Keys;
      forall k | k in a.fields ensures a.fields[k] == b.fields[k] {
        assert k in Elements(keysA);
      }
    }
  }

  lemma {:induction false} MembersUnique(a: Value, ks: seq<string>, b: Value, ls: seq<string>, u: string, v: string)
    requires a.Obj? && b.Obj? && ks != [] && ls != [] && Ends(u) && Ends(v)
    requires (forall k | k in ks :: k in a.fields) && (forall k | k in ls :: k in b.fields)
    requires JcsMembers(a, ks).Success? && JcsMembers(b, ls).Success? && MemberThen(a, ks, u) == MemberThen(b, ls, v)
    ensures ks == ls && u == v && forall k | k in ks :: a.fields[k] == b.fields[k]
    decreases a, 0, |ks|
  {
    var valueA, valueB := a.fields[ks[0]], b.fields[ls[0]];
    var tailA, tailB := MembersTail(a, ks[1..], u), MembersTail(b, ls[1..], v);
    QuoteUnique(ks[0], ls[0], [':'] + (Jcs(valueA).value + tailA), [':'] + (Jcs(valueB).value + tailB));
    Cancel([':'], Jcs(valueA).value + tailA, [':'], Jcs(valueB).value + tailB);
    MembersTailShape(a, ks[1..], u);
    MembersTailShape(b, ls[1..], v);
    ValueUnique(valueA, valueB, tailA, tailB);
    if ks[1..] == [] {
      assert ls[1..] == [];
      Cancel(['}'], u, ['}'], v);
    } else {
      assert ls[1..] != [];
      Cancel([','], MemberThen(a, ks[1..], u), [','], MemberThen(b, ls[1..], v));
      MembersUnique(a, ks[1..], b, ls[1..], u, v);
    }
    assert ks == [ks[0]] + ks[1..] && ls == [ls[0]] + ls[1..];
  }

  /** Canonical printing is injective: values with the same canonical text are equal. */
  lemma JcsInjective(a: Value, b: Value)
    requires Jcs(a).Success? && Jcs(a) == Jcs(b)
    ensures a == b
  {
    ValueUnique(a, b, "", "");
  }

  // ---------- The texts are compact ----------

  /** Parts with commas between them and nothing else. */
  function Separated(parts: seq<string>): string {
    if parts == [] then ""
    else if |parts| == 1 then parts[0]
    else Separated(parts[..|parts| - 1]) + "," + parts[|parts| - 1]
  }

  lemma {:induction false} JoinTailAppend(parts: seq<string>, part: string)
    ensures JoinTail(parts + [part]) == JoinTail(parts) + "," + part
  {
    if parts == [] {
      assert parts + [part] == [part] && [part][1..] == [];
      assert JoinTail([part]) == "," + part + "";
    } else {
      assert (parts + [part])[0] == parts[0] && (parts + [part])[1..] == parts[1..] + [part];
      JoinTailAppend(parts[1..], part);
    }
  }

  lemma {:induction false} JoinIsSeparated(parts: seq<string>)
    ensures Join(parts) == Separated(parts)
  {
    if |parts| == 1 {
      assert parts[1..] == [] && parts[0] + "" == parts[0];
    } else if |parts| > 1 {
      var last := |parts| - 1;
      JoinIsSeparated(parts[..last]);
      assert parts[1..] == parts[..last][1..] + [parts[last]];
      JoinTailAppend(parts[..last][1..], parts[last]);
      assert parts[..last][0] == parts[0];
    }
  }

  lemma {:induction false} ItemTexts(v: Value, k: nat)
    requires v.Arr? && k <= |v.items| && JcsItems(v, k).Success?
    ensures var parts := JcsItems(v, k).value;
            && |parts| == |v.items| - k
            && forall j {:trigger v.items[j]} | k <= j < |v.items| ::
                 Jcs(v.items[j]).Success? && parts[j - k] == Jcs(v.items[j]).value
    decreases |v.items| - k
  {
    if k < |v.items| {
      ItemTexts(v, k + 1);
      var parts, rest := JcsItems(v, k).value, JcsItems(v, k + 1).value;
      forall j | k <= j < |v.items| ensures Jcs(v.items[j]).Success? && parts[j - k] == Jcs(v.items[j]).value {
        assert j > k ==> parts[j - k] == rest[j - k - 1];
      }
    }
  }

  lemma {:induction false} MemberTexts(v: Value, keys: seq<string>)
    requires v.Obj? && (forall k | k in keys :: k in v.fields) && JcsMembers(v, keys).Success?
    ensures var parts := JcsMembers(v, keys).value;
            && |parts| == |keys|
            && forall i | 0 <= i < |parts| ::
                 Jcs(v.fields[keys[i]]).Success? && parts[i] == Quote(keys[i]) + ":" + Jcs(v.fields[keys[i]]).value
  {
    if keys != [] {
      MemberTexts(v, keys[1..]);
    }
  }

  /** The text of an array: the texts of its items, in order, with commas and without white space. */
  lemma ArrayText(v: Value) returns (parts: seq<string>)
    requires v.Arr? && Jcs(v).Success?
    ensures |parts| == |v.items| && Jcs(v).value == "[" + Separated(parts) + "]"
    ensures forall i | 0 <= i < |parts| :: Jcs(v.items[i]).Success? && parts[i] == Jcs(v.items[i]).value
  {
    parts := JcsItems(v, 0).value;
    ItemTexts(v, 0);
    JoinIsSeparated(parts);
    forall i | 0 <= i < |parts| ensures Jcs(v.items[i]).Success? && parts[i] == Jcs(v.items[i]).value {
      assert v.items[i] == v.items[i] && parts[i - 0] == parts[i];
    }
  }

  /** The text of an object: one part for each key, each once and in ascending order. */
  lemma ObjectText(v: Value) returns (keys: seq<string>, parts: seq<string>)
    requires v.Obj? && Jcs(v).Success?
    ensures Elements(keys) == v.fields.Keys && forall i, j | 0 <= i < j < |keys| :: Less(keys[i], keys[j])
    ensures |parts| == |keys| && Jcs(v).value == "{" + Separated(parts) + "}"
    ensures forall i | 0 <= i < |parts| ::
              && keys[i] in v.fields && Jcs(v.fields[keys[i]]).Success?
              && parts[i] == Quote(keys[i]) + ":" + Jcs(v.fields[keys[i]]).value
  {
    keys := SortedKeys(v.fields.Keys);
    parts := JcsMembers(v, keys).value;
    MemberTexts(v, keys);
    JoinIsSeparated(parts);
    forall i, j | 0 <= i < j < |keys| ensures Less(keys[i], keys[j]) { SortedKeysAscend(v.fields.Keys, i, j); }
    assert forall i | 0 <= i < |keys| :: keys[i] in Elements(keys);
  }

  /** Escapes are those of section 3.2.2.2 of RFC 8785: a character stands for itself unless it must be
      escaped, the short escapes are used where there are any, and hexadecimal digits are in lower case. */
  lemma EscapesAreCanonical(c: char)
    ensures c as int >= 0x20 && c != '\"' && c != '\\' ==> Escape(c) == [c]
    ensures c == '\"' || c == '\\' ==> Escape(c) == ['\\', c]
    ensures |Escape(c)| == 2 <==> c == '\"' || c == '\\' || c as int in {0x08, 0x09, 0x0A, 0x0C, 0x0D}
    ensures |Escape(c)| == 6 ==>
              Escape(c)[..4] == ['\\', 'u', '0', '0'] && forall i | 4 <= i < 6 :: Escape(c)[i] !in "ABCDEF"
  {
  }

  // ---------- Bytes and pairings ----------

  /** UTF-8 (RFC 3629, section 3) of one character. */
  function Utf8Char(c: char): seq<nat> {
    var n := c as int;
    if n < 0x80 then [n]
    else if n < 0x800 then [0xC0 + n / 0x40, 0x80 + n % 0x40]
    else if n < 0x10000 then [0xE0 + n / 0x1000, 0x80 + n / 0x40 % 0x40, 0x80 + n % 0x40]
    else [0xF0 + n / 0x40000, 0x80 + n / 0x1000 % 0x40, 0x80 + n / 0x40 % 0x40, 0x80 + n % 0x40]
  }

  function Utf8(s: string): seq<nat> {
    if s == "" then [] else Utf8Char(s[0]) + Utf8(s[1..])
  }

  /** The first byte tells the length, and all bytes together tell the character. */
  lemma Utf8CharUnique(c: char, d: char, u: seq<nat>, v: seq<nat>)
    requires Utf8Char(c) + u == Utf8Char(d) + v
    ensures c == d && u == v
  {
    var a, b := Utf8Char(c), Utf8Char(d);
    assert (a + u)[0] == a[0] && (b + v)[0] == b[0];
    assert |a| == |b|;
    assert a == (a + u)[..|a|] && b == (b + v)[..|b|];
    assert u == (a + u)[|a|..] && v == (b + v)[|b|..];
    Utf8CharInjective(c, d);
  }

  lemma Utf8CharInjective(c: char, d: char)
    requires Utf8Char(c) == Utf8Char(d)
    ensures c == d
  {
    var m, n, bytes := c as int, d as int, Utf8Char(c);
    SixBits(m);
    SixBits(n);
    if |bytes| == 2 {
      assert bytes[0] == 0xC0 + m / 0x40 && bytes[0] == 0xC0 + n / 0x40;
    } else if |bytes| == 3 {
      assert bytes[0] == 0xE0 + m / 0x1000 && bytes[0] == 0xE0 + n / 0x1000;
      assert bytes[1] == 0x80 + m / 0x40 % 0x40 && bytes[1] == 0x80 + n / 0x40 % 0x40;
    } else if |bytes| == 4 {
      assert bytes[0] == 0xF0 + m / 0x40000 && bytes[0] == 0xF0 + n / 0x40000;
      assert bytes[1] == 0x80 + m / 0x1000 % 0x40 && bytes[1] == 0x80 + n / 0x1000 % 0x40;
      assert bytes[2] == 0x80 + m / 0x40 % 0x40 && bytes[2] == 0x80 + n / 0x40 % 0x40;
    }
  }

  lemma SixBits(n: nat)
    ensures n == n / 0x40 * 0x40 + n % 0x40
    ensures n / 0x40 == n / 0x1000 * 0x40 + n / 0x40 % 0x40
    ensures n / 0x1000 == n / 0x40000 * 0x40 + n / 0x1000 % 0x40
  {}

  lemma {:induction false} Utf8Injective(s: string, t: string)
    requires Utf8(s) == Utf8(t)
    ensures s == t
  {
    if s == "" || t == "" {
      assert s != "" ==> Utf8(s) != [];
      assert t != "" ==> Utf8(t) != [];
    } else {
      Utf8CharUnique(s[0], t[0], Utf8(s[1..]), Utf8(t[1..]));
      Utf8Injective(s[1..], t[1..]);
      assert s == [s[0]] + s[1..] && t == [t[0]] + t[1..];
    }
  }

  ghost function JcsBytes(v: Value): Result<seq<nat>, Error> {
    var text := Jcs(v);
    if text.Failure? then Failure(text.error) else Success(Utf8(text.value))
  }

  const PAIRING_TYPE := "V0_2_2_EXACT_PRODUCT_ACCEPTANCE_TOOL_PAIRING_V1"

  function PairingPreimage(product: Value, tool: Value): Value {
    Obj(map["pairingType" := Str(PAIRING_TYPE), "productProvenance" := product, "acceptanceToolProvenance" := tool])
  }

  /** Equal canonical bytes come from equal values. */
  lemma JcsBytesInjective(a: Value, b: Value)
    requires JcsBytes(a).Success? && JcsBytes(a) == JcsBytes(b)
    ensures a == b
  {
    Utf8Injective(Jcs(a).value, Jcs(b).value);
    JcsInjective(a, b);
  }

  /** A pairing preimage determines the product and the tool it pairs. */
  lemma PairingDetermined(product: Value, tool: Value, product': Value, tool': Value)
    requires JcsBytes(PairingPreimage(product, tool)).Success?
    requires JcsBytes(PairingPreimage(product, tool)) == JcsBytes(PairingPreimage(product', tool'))
    ensures product == product' && tool == tool'
  {
    JcsBytesInjective(PairingPreimage(product, tool), PairingPreimage(product', tool'));
    PreimageFields(product, tool);
    PreimageFields(product', tool');
  }

  lemma PreimageFields(product: Value, tool: Value)
    ensures PairingPreimage(product, tool).fields.Keys
         == {"pairingType", "productProvenance", "acceptanceToolProvenance"}
    ensures PairingPreimage(product, tool).fields["pairingType"]
         == Str("V0_2_2_EXACT_PRODUCT_ACCEPTANCE_TOOL_PAIRING_V1")
    ensures "productProvenance" in PairingPreimage(product, tool).fields
    ensures PairingPreimage(product, tool).fields["productProvenance"] == product
    ensures "acceptanceToolProvenance" in PairingPreimage(product, tool).fields
    ensures PairingPreimage(product, tool).fields["acceptanceToolProvenance"] == tool
  {
    assert |"pairingType"| == 11 && |"productProvenance"| == 17 && |"acceptanceToolProvenance"| == 24;
  }

  // ---------- Code points and UTF-16 code units ----------

  /** UTF-16 (RFC 2781, section 2.1) of one character. */
  function Utf16Char(c: char): seq<nat> {
    var n := c as int;
    if n < 0x10000 then [n] else [0xD800 + (n - 0x10000) / 0x400, 0xDC00 + (n - 0x10000) % 0x400]
  }

  function Utf16(s: string): seq<nat> {
    if s == "" then [] else Utf16Char(s[0]) + Utf16(s[1..])
  }

  predicate UnitsLess(a: seq<nat>, b: seq<nat>) {
    if b == [] then false
    else if a == [] then true
    else a[0] < b[0] || (a[0] == b[0] && UnitsLess(a[1..], b[1..]))
  }

  /** RFC 8785, section 3.2.3, sorts keys by UTF-16 code units. */
  predicate Rfc8785Less(a: string, b: string) {
    UnitsLess(Utf16(a), Utf16(b))
  }

  /** Two characters that the two orders compare differently. */
  predicate OrdersDisagree(c: char, d: char) {
    || (c as int >= 0x10000 && 0xE000 <= d as int < 0x10000)
    || (d as int >= 0x10000 && 0xE000 <= c as int < 0x10000)
  }

  /** The first position at which two keys differ exists in both and is of that kind. */
  predicate KeysDisagree(a: string, b: string) {
    a != "" && b != "" && if a[0] == b[0] then KeysDisagree(a[1..], b[1..]) else OrdersDisagree(a[0], b[0])
  }

  lemma {:induction false} UnitsLessPrefix(p: seq<nat>, a: seq<nat>, b: seq<nat>)
    ensures UnitsLess(p + a, p + b) <==> UnitsLess(a, b)
  {
    if p == [] {
      assert p + a == a && p + b == b;
    } else {
      assert (p + a)[0] == (p + b)[0] && (p + a)[1..] == p[1..] + a && (p + b)[1..] == p[1..] + b;
      UnitsLessPrefix(p[1..], a, b);
    }
  }

  lemma CharOrders(c: char, d: char, a: seq<nat>, b: seq<nat>)
    requires c != d
    ensures UnitsLess(Utf16Char(c) + a, Utf16Char(d) + b) <==> (if OrdersDisagree(c, d) then d < c else c < d)
  {
    var x, y := Utf16Char(c) + a, Utf16Char(d) + b;
    assert x[0] == Utf16Char(c)[0] && y[0] == Utf16Char(d)[0];
    if c as int >= 0x10000 && d as int >= 0x10000 && x[0] == y[0] {
      assert x[1] == Utf16Char(c)[1] && y[1] == Utf16Char(d)[1];
      assert x[1..][0] == x[1] && y[1..][0] == y[1];
    }
  }

  /** The printer sorts two keys as RFC 8785 does, if and only if they do not first differ in a
      character above U+FFFF against one of U+E000 to U+FFFF; so always for ASCII keys. */
  lemma {:induction false} KeyOrderAgrees(a: string, b: string)
    ensures KeysDisagree(a, b) ==> (Less(a, b) <==> !Rfc8785Less(a, b))
    ensures !KeysDisagree(a, b) ==> (Less(a, b) <==> Rfc8785Less(a, b))
  {
    if a != "" && b != "" {
      if a[0] == b[0] {
        UnitsLessPrefix(Utf16Char(a[0]), Utf16(a[1..]), Utf16(b[1..]));
        KeyOrderAgrees(a[1..], b[1..]);
      } else {
        CharOrders(a[0], b[0], Utf16(a[1..]), Utf16(b[1..]));
      }
    } else {
      assert a != "" ==> Utf16(a) != [];
      assert b != "" ==> Utf16(b) != [];
    }
  }

  lemma {:induction false} AsciiKeysAgree(a: string, b: string)
    requires forall c | c in a :: c as int < 0x80
    ensures !KeysDisagree(a, b)
  {
    if a != "" && b != "" {
      assert a[0] in a;
      if a[0] == b[0] {
        assert forall c | c in a[1..] :: c in a;
        AsciiKeysAgree(a[1..], b[1..]);
      }
    }
  }

  /** The keys come in the order that RFC 8785 asks for. */
  ghost predicate InRfc8785Order(keys: seq<string>) {
    forall i, j | 0 <= i < j < |keys| :: Rfc8785Less(keys[i], keys[j])
  }

  lemma {:induction false} DisagreementIsSymmetric(a: string, b: string)
    ensures KeysDisagree(a, b) <==> KeysDisagree(b, a)
    ensures a == b ==> !KeysDisagree(a, b)
  {
    if a != "" && b != "" && a[0] == b[0] {
      DisagreementIsSymmetric(a[1..], b[1..]);
    }
  }

  ghost predicate NoneDisagree(keys: set<string>) {
    forall a, b {:trigger KeysDisagree(a, b)} | a in keys && b in keys :: !KeysDisagree(a, b)
  }

  lemma SortedPair(keys: set<string>, i: nat, j: nat)
    requires i < j < |SortedKeys(keys)|
    ensures var sorted := SortedKeys(keys);
            && sorted[i] in keys && sorted[j] in keys
            && (Rfc8785Less(sorted[i], sorted[j]) <==> !KeysDisagree(sorted[i], sorted[j]))
  {
    var sorted := SortedKeys(keys);
    assert sorted[i] in Elements(sorted) && sorted[j] in Elements(sorted);
    SortedKeysAscend(keys, i, j);
    KeyOrderAgrees(sorted[i], sorted[j]);
  }

  lemma Position(keys: set<string>, a: string) returns (i: nat)
    requires a in keys
    ensures i < |SortedKeys(keys)| && SortedKeys(keys)[i] == a
  {
    assert a in Elements(SortedKeys(keys));
    i :| 0 <= i < |SortedKeys(keys)| && SortedKeys(keys)[i] == a;
  }

  lemma OrderMeansAgreement(keys: set<string>, a: string, b: string)
    requires InRfc8785Order(SortedKeys(keys)) && a in keys && b in keys
    ensures !KeysDisagree(a, b)
  {
    var i := Position(keys, a);
    var j := Position(keys, b);
    DisagreementIsSymmetric(a, b);
    if i < j {
      SortedPair(keys, i, j);
    } else if j < i {
      SortedPair(keys, j, i);
    }
  }

  /** The order in which the printer writes the keys of an object is that of RFC 8785, if and only
      if no two of the keys disagree. */
  lemma ObjectKeyOrderIff(keys: set<string>)
    ensures InRfc8785Order(SortedKeys(keys)) <==> NoneDisagree(keys)
  {
    if InRfc8785Order(SortedKeys(keys)) {
      forall a, b | a in keys && b in keys ensures !KeysDisagree(a, b) {
        OrderMeansAgreement(keys, a, b);
      }
    }
    if NoneDisagree(keys) {
      forall i, j | 0 <= i < j < |SortedKeys(keys)| ensures Rfc8785Less(SortedKeys(keys)[i], SortedKeys(keys)[j]) {
        SortedPair(keys, i, j);
      }
    }
  }

  /** For example, the first character beyond U+FFFF is two code units that begin below U+E000. */
  lemma KeyOrderDiffers()
    ensures Less("\U{E000}", "\U{10000}") && Rfc8785Less("\U{10000}", "\U{E000}")
    ensures !InRfc8785Order(SortedKeys({"\U{E000}", "\U{10000}"}))
  {
    var a, b := "\U{E000}", "\U{10000}";
    assert a[0] != b[0] && OrdersDisagree(a[0], b[0]);
    KeyOrderAgrees(a, b);
    DisagreementIsSymmetric(a, b);
    KeyOrderAgrees(b, a);
    ObjectKeyOrderIff({a, b});
  }
}
