/** The login form sent to qBittorrent: percent-encoding (sections 2.1 and 2.3 of RFC 3986), and that the
    server which splits and decodes the body gets back exactly the username and the password. */
module LoginForm {
  import opened FileSystem

  // ----- Encoding, as the daemon does it -----

  predicate Unreserved(b: byte) {
    || 'A' as int <= b <= 'Z' as int || 'a' as int <= b <= 'z' as int || '0' as int <= b <= '9' as int
    || b == '-' as int || b == '.' as int || b == '_' as int || b == '~' as int
  }

  function HexDigit(n: nat): char
    requires n < 16
  {
    if n < 10 then (('0' as int) + n) as char else (('A' as int) + n - 10) as char
  }

  function Encoded(b: byte): string {
    if Unreserved(b) then [b as char] else ['%', HexDigit(b / 16), HexDigit(b % 16)]
  }

  function UrlEncoded(value: Bytes): string
    decreases |value|
  {
    if value == [] then "" else UrlEncoded(value[..|value| - 1]) + Encoded(value[|value| - 1])
  }

  function LoginBody(username: Bytes, password: Bytes): string {
    "username=" + UrlEncoded(username) + "&password=" + UrlEncoded(password)
  }

  // ----- Decoding, as a server does it -----

  function HexValue(c: char): Option<nat> {
    if '0' <= c <= '9' then Some(c as int - '0' as int)
    else if 'A' <= c <= 'F' then Some(c as int - 'A' as int + 10)
    else if 'a' <= c <= 'f' then Some(c as int - 'a' as int + 10)
    else None
  }

  /** Percent-decoding. Forms also read a plus sign as a space. */
  function Decode(s: string, form: bool): Option<Bytes>
    decreases |s|
  {
    if s == [] then Some([])
    else if s[0] == '%' then
      if |s| < 3 || HexValue(s[1]).None? || HexValue(s[2]).None? then None
      else Prepend(HexValue(s[1]).value * 16 + HexValue(s[2]).value, Decode(s[3..], form))
    else if s[0] == '+' && form then Prepend(' ' as int, Decode(s[1..], form))
    else Prepend(s[0] as int, Decode(s[1..], form))
  }

  function Prepend(b: nat, rest: Option<Bytes>): Option<Bytes> {
    if b < 256 && rest.Some? then Some([b as byte] + rest.value) else None
  }

  /** Cuts at the first `c`. */
  function Cut(s: string, c: char): (string, Option<string>)
    decreases |s|
  {
    if s == [] then ([], None)
    else if s[0] == c then ([], Some(s[1..]))
    else
      var (head, tail) := Cut(s[1..], c);
      ([s[0]] + head, tail)
  }

  function ParseField(field: string): Option<(string, Bytes)> {
    var (name, value) := Cut(field, '=');
    if value.None? then None
    else
      var bytes := Decode(value.value, true);
      if bytes.None? then None else Some((name, bytes.value))
  }

  function ParseForm(body: string): Option<seq<(string, Bytes)>>
    decreases |body|
  {
    var (field, rest) := Cut(body, '&');
    CutShorter(body, '&');
    var first := ParseField(field);
    if first.None? then None
    else if rest.None? then Some([first.value])
    else
      var others := ParseForm(rest.value);
      if others.None? then None else Some([first.value] + others.value)
  }

  lemma {:induction false} CutShorter(s: string, c: char)
    ensures var (head, tail) := Cut(s, c); tail.Some? ==> |tail.value| < |s|
    decreases |s|
  {
    if s != [] && s[0] != c {
      CutShorter(s[1..], c);
    }
  }

  // ----- The round trip -----

  lemma Associative(x: string, y: string, z: string)
    ensures x + y + z == x + (y + z)
  {
  }

  lemma DecodeByte(b: byte, rest: string, form: bool)
    ensures Decode(Encoded(b) + rest, form) == Prepend(b, Decode(rest, form))
  {
    var s := Encoded(b) + rest;
    if Unreserved(b) {
      assert s[1..] == rest;
    } else {
      assert s[3..] == rest;
      assert HexValue(HexDigit(b / 16)) == Some(b / 16) && HexValue(HexDigit(b % 16)) == Some(b % 16);
    }
  }

  lemma {:induction false} DecodePrefix(value: Bytes, rest: string, form: bool)
    requires Decode(rest, form).Some?
    ensures Decode(UrlEncoded(value) + rest, form) == Some(value + Decode(rest, form).value)
    decreases |value|
  {
    if value == [] {
      assert UrlEncoded(value) + rest == rest && value + Decode(rest, form).value == Decode(rest, form).value;
    } else {
      var front, last := value[..|value| - 1], value[|value| - 1];
      DecodeByte(last, rest, form);
      DecodePrefix(front, Encoded(last) + rest, form);
      Associative(UrlEncoded(front), Encoded(last), rest);
      assert value + Decode(rest, form).value == front + ([last] + Decode(rest, form).value);
    }
  }

  /** Decoding gives back every byte string, whether or not the server takes a plus sign for a space. */
  lemma EncodeDecode(value: Bytes, form: bool)
    ensures Decode(UrlEncoded(value), form) == Some(value)
  {
    DecodePrefix(value, "", form);
    assert UrlEncoded(value) + "" == UrlEncoded(value) && value + [] == value;
  }

  /** The output holds unreserved characters and percent signs only; so none that a form gives a meaning. */
  lemma {:induction false} EncodedIsPlain(value: Bytes)
    ensures forall c :: c in UrlEncoded(value) ==> c == '%' || (c as int < 256 && Unreserved(c as int))
    ensures '&' !in UrlEncoded(value) && '=' !in UrlEncoded(value) && '+' !in UrlEncoded(value)
    decreases |value|
  {
    if value != [] {
      EncodedIsPlain(value[..|value| - 1]);
    }
  }

  /** The encoding goes byte by byte. */
  lemma {:induction false} EncodedParts(x: Bytes, y: Bytes)
    ensures UrlEncoded(x + y) == UrlEncoded(x) + UrlEncoded(y)
    decreases |y|
  {
    if y == [] {
      assert x + y == x && UrlEncoded(x) + "" == UrlEncoded(x);
    } else {
      var front := y[..|y| - 1];
      assert (x + y)[..|x + y| - 1] == x + front && (x + y)[|x + y| - 1] == y[|y| - 1];
      EncodedParts(x, front);
    }
  }

  /** A letter, a digit, or one of four signs stands for itself, and for any other byte stand a percent sign and its
      two digits, capital letters for those past nine. */
  lemma EncodedByte(b: byte)
    ensures
      UrlEncoded([b]) ==
        if 65 <= b <= 90 || 97 <= b <= 122 || 48 <= b <= 57 || b as char in "-._~" then [b as char]
        else ['%', "0123456789ABCDEF"[b / 16], "0123456789ABCDEF"[b % 16]]
  {
    assert [b][..0] == [] && UrlEncoded([]) == "";
    HexDigits(b / 16);
    HexDigits(b % 16);
  }

  lemma HexDigits(n: nat)
    requires n < 16
    ensures HexDigit(n) == "0123456789ABCDEF"[n]
  {
  }

  /** Different byte strings are encoded differently. */
  lemma EncodeInjective(x: Bytes, y: Bytes)
    ensures UrlEncoded(x) == UrlEncoded(y) <==> x == y
  {
    EncodeDecode(x, false);
    EncodeDecode(y, false);
  }

  lemma {:induction false} CutAt(head: string, c: char, tail: string)
    requires c !in head
    ensures Cut(head + [c] + tail, c) == (head, Some(tail))
    ensures Cut(head, c) == (head, None)
    decreases |head|
  {
    var s := head + [c] + tail;
    if head == [] {
      assert s[1..] == tail;
    } else {
      CutAt(head[1..], c, tail);
      assert s[1..] == head[1..] + [c] + tail;
      assert head == [head[0]] + head[1..];
    }
  }

  lemma FieldRoundTrip(name: string, value: Bytes)
    requires '=' !in name
    ensures ParseField(name + "=" + UrlEncoded(value)) == Some((name, value))
  {
    CutAt(name, '=', UrlEncoded(value));
    EncodeDecode(value, true);
  }

  lemma FieldIsWhole(key: string, value: Bytes)
    requires '&' !in key
    ensures '&' !in key + "=" + UrlEncoded(value)
  {
    EncodedIsPlain(value);
  }

  /** The server that splits the body at `&` and `=` and decodes the values gets exactly the two fields. */
  lemma LoginRoundTrip(username: Bytes, password: Bytes)
    ensures ParseForm(LoginBody(username, password)) == Some([("username", username), ("password", password)])
  {
    assert "username=" == "username" + "=" && "&password=" == "&" + "password" + "=";
    assert LoginBody(username, password)
        == "username" + "=" + UrlEncoded(username) + "&" + "password" + "=" + UrlEncoded(password);
    TwoFields("username", username, "password", password);
  }

  lemma TwoFields(name: string, value: Bytes, name': string, value': Bytes)
    requires '&' !in name && '&' !in name' && '=' !in name && '=' !in name'
    ensures
      ParseForm(name + "=" + UrlEncoded(value) + "&" + name' + "=" + UrlEncoded(value'))
        == Some([(name, value), (name', value')])
  {
    var first, second := name + "=" + UrlEncoded(value), name' + "=" + UrlEncoded(value');
    FieldIsWhole(name, value);
    CutAt(first, '&', second);
    FieldRoundTrip(name, value);
    LastField(name', value');
    FormOfTwo(first, second, (name, value), (name', value'));
    assert name + "=" + UrlEncoded(value) + "&" + name' + "=" + UrlEncoded(value') == first + ['&'] + second;
  }

  lemma LastField(name: string, value: Bytes)
    requires '&' !in name && '=' !in name
    ensures ParseForm(name + "=" + UrlEncoded(value)) == Some([(name, value)])
  {
    var field := name + "=" + UrlEncoded(value);
    FieldIsWhole(name, value);
    CutAt(field, '&', "");
    FieldRoundTrip(name, value);
  }

  lemma FormOfTwo(first: string, second: string, x: (string, Bytes), y: (string, Bytes))
    requires Cut(first + ['&'] + second, '&') == (first, Some(second))
    requires ParseField(first) == Some(x) && ParseForm(second) == Some([y])
    ensures ParseForm(first + ['&'] + second) == Some([x, y])
  {
    assert [x] + [y] == [x, y];
  }

  // ----- The encoder as a loop over the bytes -----

  method Encode(value: Bytes) returns (encoded: string)
    ensures encoded == UrlEncoded(value)
    ensures Decode(encoded, true) == Some(value)
  {
    encoded := "";
    for i := 0 to |value|
      invariant encoded == UrlEncoded(value[..i])
    {
      assert value[..i + 1][..i] == value[..i];
      if Unreserved(value[i]) {
        encoded := encoded + [value[i] as char];
      } else {
        encoded := encoded + ['%', HexDigit(value[i] / 16), HexDigit(value[i] % 16)];
      }
    }
    assert value[..|value|] == value;
    EncodeDecode(value, true);
  }
}
