/** The `key=value` responses of `drivers/conmux.c`, with the percent-encoding of
    section 2.1 of RFC 3986. */
module Conmux {
  import opened Bytes
  import opened CLib

  datatype Response = Response(title: Option<string>, status: Option<string>,
                               result: Option<string>, state: Option<string>)

  const Empty := Response(None, None, None, None)

  /** `nibble`, in `uint8_t`. */
  function Nibble(c: char): nat {
    if '0' <= c <= '9' then c as int - '0' as int
    else if 'a' <= c <= 'z' then 10 + (c as int - 'a' as int)
    else if 'A' <= c <= 'Z' then 10 + (c as int - 'A' as int)
    else 0xff
  }

  /** The byte written as two hexadecimal digits. */
  function HexByte(hi: char, lo: char): (c: char)
    requires IsXDigit(hi) && IsXDigit(lo)
    ensures c as int < 0x100
  {
    (Nibble(hi) * 16 + Nibble(lo)) as char
  }

  /** What `strdup` copies: the text before any NUL. */
  function CStr(s: string): string {
    if s == "" || s[0] == '\0' then "" else [s[0]] + CStr(s[1..])
  }

  /** Keeps a value under its key. */
  function Keep(resp: Response, key: string, value: string): Response {
    if key == "result" then resp.(result := Some(value))
    else if key == "status" then resp.(status := Some(value))
    else if key == "title" then resp.(title := Some(value))
    else if key == "state" then resp.(state := Some(value))
    else resp
  }

  function Store(resp: Response, key: string, value: string): Response {
    Keep(resp, key, CStr(value))
  }

  // ---- The parser as a function --------------------------------------------

  /** The letters that `s` starts with, on top of `acc`. */
  function Letters(s: string, acc: string): (r: string)
    ensures |r| <= |acc| + |s|
    decreases |s|
  {
    if s != "" && IsAlpha(s[0]) then Letters(s[1..], acc + [s[0]]) else acc
  }

  predicate InValue(c: char) {
    IsPrint(c) && !IsSpace(c)
  }

  datatype Taken = BadEncoding | Taken(value: string, rest: string)

  /** The value that `s` starts with, decoded, on top of `acc`. */
  function TakeValue(s: string, acc: string): (t: Taken)
    ensures t.Taken? ==> |t.rest| <= |s|
    decreases |s|
  {
    if s == "" || !InValue(s[0]) then Taken(acc, s)
    else if s[0] != '%' then TakeValue(s[1..], acc + [s[0]])
    else if |s| < 3 || !IsXDigit(s[1]) || !IsXDigit(s[2]) then BadEncoding
    else TakeValue(s[3..], acc + [HexByte(s[1], s[2])])
  }

  datatype Parsed = Parsed(ok: bool, resp: Response)

  function SkipSpace(s: string): string {
    if s != [] && IsSpace(s[0]) then SkipSpace(s[1..]) else s
  }

  lemma {:induction false} SkipSpaceShorter(s: string)
    ensures |SkipSpace(s)| <= |s|
    ensures SkipSpace(s) != "" ==> !IsSpace(SkipSpace(s)[0])
    decreases |s|
  {
    if s != "" && IsSpace(s[0]) {
      SkipSpaceShorter(s[1..]);
    }
  }

  /** `parse_response` from some point on: it stops at the first pair that is
      malformed, keeping what it has stored. */
  function Parse(s: string, resp: Response): Parsed
    decreases |s|
  {
    SkipSpaceShorter(s);
    var t := SkipSpace(s);
    if t == "" then Parsed(true, resp)
    else
      var key := Letters(t, "");
      var u := t[|key|..];
      if u == "" || u[0] != '=' then Parsed(false, resp)
      else
        match TakeValue(u[1..], "")
        case BadEncoding => Parsed(false, resp)
        case Taken(value, rest) => Parse(rest, Store(resp, key, value))
  }

  /** One turn of the parser, from what its three scans return. */
  lemma {:induction false} ParseTurn(s: string, key: string, u: string, value: string, rest: string, resp: Response)
    requires SkipSpace(s) == key + u && Letters(key + u, "") == key
    requires u != "" && u[0] == '=' && TakeValue(u[1..], "") == Taken(value, rest)
    ensures Parse(s, resp) == Parse(rest, Store(resp, key, value))
  {
    var t := key + u;
    assert t != "" && t[|key|..] == u;
  }

  lemma {:induction false} SkipSpaceTwice(s: string)
    ensures SkipSpace(SkipSpace(s)) == SkipSpace(s)
  {
    SkipSpaceShorter(s);
  }

  lemma {:induction false} ParseAfterSpace(s: string, resp: Response)
    ensures Parse(s, resp) == Parse(SkipSpace(s), resp)
    ensures SkipSpace(s) != "" ==> !IsSpace(SkipSpace(s)[0])
  {
    SkipSpaceShorter(s);
    SkipSpaceTwice(s);
  }

  /** A turn that ends the parser because its pair is malformed. */
  lemma {:induction false} ParseFails(s: string, key: string, u: string, resp: Response)
    requires SkipSpace(s) == key + u != "" && Letters(key + u, "") == key
    requires (u == "" || u[0] != '=') || TakeValue(u[1..], "").BadEncoding?
    ensures Parse(s, resp) == Parsed(false, resp)
  {
    assert (key + u)[|key|..] == u;
  }

  // ---- The parser as it runs -----------------------------------------------

  method ReadSpace(buf: string, start: nat) returns (p: nat)
    requires start <= |buf|
    ensures start <= p <= |buf| && buf[p..] == SkipSpace(buf[start..])
  {
    p := start;
    while IsSpace(CharAt(buf, p))
      invariant start <= p <= |buf| && SkipSpace(buf[p..]) == SkipSpace(buf[start..])
      decreases |buf| - p
    {
      assert buf[p..][1..] == buf[p + 1..];
      p := p + 1;
    }
  }

  method ReadKey(buf: string, start: nat) returns (p: nat, key: string)
    requires start <= |buf|
    ensures start <= p <= |buf| && key == Letters(buf[start..], "") == buf[start..p]
  {
    p, key := start, "";
    while IsAlpha(CharAt(buf, p))
      invariant start <= p <= |buf| && key == buf[start..p]
      invariant Letters(buf[start..], "") == Letters(buf[p..], key)
      decreases |buf| - p
    {
      assert buf[p..][1..] == buf[p + 1..];
      key := key + [buf[p]];
      p := p + 1;
    }
  }

  lemma {:induction false} ValueEnds(buf: string, p: nat, value: string)
    requires p <= |buf| && !InValue(CharAt(buf, p))
    ensures TakeValue(buf[p..], value) == Taken(value, buf[p..])
  {}

  lemma {:induction false} PlainTaken(buf: string, p: nat, value: string)
    requires p < |buf| && InValue(buf[p]) && buf[p] != '%'
    ensures TakeValue(buf[p..], value) == TakeValue(buf[p + 1..], value + [buf[p]])
  {
    assert buf[p..][1..] == buf[p + 1..];
  }

  lemma {:induction false} EscapeTaken(buf: string, p: nat, value: string)
    requires p < |buf| && buf[p] == '%'
    ensures TakeValue(buf[p..], value) ==
            if p + 2 < |buf| && IsXDigit(buf[p + 1]) && IsXDigit(buf[p + 2])
            then TakeValue(buf[p + 3..], value + [HexByte(buf[p + 1], buf[p + 2])])
            else BadEncoding
  {
    if p + 2 < |buf| {
      assert buf[p..][3..] == buf[p + 3..];
    }
  }

  method ReadValue(buf: string, start: nat) returns (ok: bool, p: nat, value: string)
    requires start <= |buf|
    ensures match TakeValue(buf[start..], "")
            case BadEncoding => !ok
            case Taken(v, rest) => ok && value == v && start <= p <= |buf| && buf[p..] == rest
  {
    p, value := start, "";
    ghost var t := TakeValue(buf[start..], "");
    while InValue(CharAt(buf, p))
      invariant start <= p <= |buf| && t == TakeValue(buf[p..], value)
      decreases |buf| - p
    {
      if buf[p] == '%' {
        EscapeTaken(buf, p, value);
        p := p + 1;
        if !IsXDigit(CharAt(buf, p)) || !IsXDigit(CharAt(buf, p + 1)) {
          return false, p, value;
        }
        value := value + [HexByte(buf[p], buf[p + 1])];
        p := p + 2;
      } else {
        PlainTaken(buf, p, value);
        value := value + [buf[p]];
        p := p + 1;
      }
    }
    ValueEnds(buf, p, value);
    ok := true;
  }

  /** One pair, from its key on: the text between white space and the next turn. */
  method ReadPair(buf: string, start: nat, resp: Response) returns (ok: bool, p: nat, next: Response)
    requires start < |buf| && !IsSpace(buf[start])
    ensures ok ==> start < p <= |buf| && Parse(buf[start..], resp) == Parse(buf[p..], next)
    ensures !ok ==> next == resp && Parse(buf[start..], resp) == Parsed(false, resp)
  {
    ghost var s := buf[start..];
    var k, key := ReadKey(buf, start);
    assert s == key + buf[k..];
    next := resp;
    if CharAt(buf, k) != '=' {
      ParseFails(s, key, buf[k..], resp);
      return false, k, next;
    }
    assert buf[k..][1..] == buf[k + 1..];
    var value;
    ok, p, value := ReadValue(buf, k + 1);
    if ok {
      ParseTurn(s, key, buf[k..], value, buf[p..], resp);
      next := Store(resp, key, value);
    } else {
      ParseFails(s, key, buf[k..], resp);
    }
  }

  /** `parse_response`. */
  method ParseResponse(buf: string) returns (ret: int, resp: Response)
    requires NulFree(buf)
    ensures Parsed(ret == 0, resp) == Parse(buf, Empty)
  {
    resp := Empty;
    var p := 0;
    assert buf[0..] == buf;
    while CharAt(buf, p) != '\0'
      invariant 0 <= p <= |buf| && Parse(buf, Empty) == Parse(buf[p..], resp)
      decreases |buf| - p
    {
      var q := ReadSpace(buf, p);
      ParseAfterSpace(buf[p..], resp);
      if CharAt(buf, q) == '\0' {
        p := q;
        break;
      }
      var ok;
      ok, p, resp := ReadPair(buf, q, resp);
      if !ok {
        return -1, resp;
      }
    }
    ret := 0;
  }

  // ---- Encoding ------------------------------------------------------------

  /** A hexadecimal digit of either case. */
  function HexChar(d: nat, upper: bool): (c: char)
    requires d < 16
    ensures IsXDigit(c) && Nibble(c) == d && InValue(c) && c != '%'
  {
    if d < 10 then ('0' as int + d) as char
    else if upper then ('A' as int + (d - 10)) as char
    else ('a' as int + (d - 10)) as char
  }

  /** The characters that must be percent-encoded to travel in a value. */
  predicate MustEncode(c: char) {
    c == '%' || !InValue(c)
  }

  /** A character on the wire; `also` are further characters that are encoded. */
  function EncodeChar(c: char, also: set<char>, upper: bool): (s: string)
    requires c as int < 0x100
    ensures |s| > 0
  {
    if MustEncode(c) || c in also then ['%', HexChar(c as int / 16, upper), HexChar(c as int % 16, upper)] else [c]
  }

  ghost predicate IsBytes(v: string) {
    forall i :: 0 <= i < |v| ==> v[i] as int < 0x100
  }

  function Encode(v: string, also: set<char>, upper: bool): string
    requires IsBytes(v)
  {
    if v == "" then "" else EncodeChar(v[0], also, upper) + Encode(v[1..], also, upper)
  }

  /** What follows a value ends it. */
  predicate EndsValue(rest: string) {
    rest == "" || !InValue(rest[0])
  }

  lemma {:induction false} TakeChar(c: char, also: set<char>, upper: bool, s: string, acc: string)
    requires c as int < 0x100
    ensures TakeValue(EncodeChar(c, also, upper) + s, acc) == TakeValue(s, acc + [c])
  {
    var t := EncodeChar(c, also, upper) + s;
    if MustEncode(c) || c in also {
      assert t[3..] == s;
      assert HexByte(t[1], t[2]) == c;
    } else {
      assert t[1..] == s;
    }
  }

  lemma {:induction false} TakeFirst(v: string, also: set<char>, upper: bool, rest: string, acc: string)
    requires IsBytes(v) && v != ""
    ensures TakeValue(Encode(v, also, upper) + rest, acc) ==
            TakeValue(Encode(v[1..], also, upper) + rest, acc + [v[0]])
  {
    var e, t := EncodeChar(v[0], also, upper), Encode(v[1..], also, upper);
    ConcatAssoc(e, t, rest);
    TakeChar(v[0], also, upper, t + rest, acc);
  }

  /** Decoding undoes encoding, whichever further characters are encoded and in
      whichever case of digits. */
  lemma {:induction false} TakeEncoded(v: string, also: set<char>, upper: bool, rest: string, acc: string)
    requires IsBytes(v) && EndsValue(rest)
    ensures TakeValue(Encode(v, also, upper) + rest, acc) == Taken(acc + v, rest)
    decreases |v|
  {
    if v == "" {
      assert Encode(v, also, upper) + rest == rest && acc + v == acc;
    } else {
      TakeFirst(v, also, upper, rest, acc);
      TakeEncoded(v[1..], also, upper, rest, acc + [v[0]]);
      assert acc + [v[0]] + v[1..] == acc + v;
    }
  }

  // ---- Responses -----------------------------------------------------------

  /** A pair, the white space behind it, and how its value is encoded. */
  datatype Pair = Pair(key: string, value: string, also: set<char>, upper: bool, space: string)

  ghost predicate AllSpace(s: string) {
    forall i :: 0 <= i < |s| ==> IsSpace(s[i])
  }

  ghost predicate PairOk(p: Pair) {
    && (forall i :: 0 <= i < |p.key| ==> IsAlpha(p.key[i]))
    && IsBytes(p.value) && NulFree(p.value) && AllSpace(p.space)
  }

  /** Every pair is sound, and only the last may have nothing behind it. */
  ghost predicate PairsOk(ps: seq<Pair>) {
    forall i :: 0 <= i < |ps| ==> PairOk(ps[i]) && (i < |ps| - 1 ==> ps[i].space != "")
  }

  function Text(ps: seq<Pair>): string
    requires forall i :: 0 <= i < |ps| ==> IsBytes(ps[i].value)
  {
    if ps == [] then ""
    else ps[0].key + "=" + Encode(ps[0].value, ps[0].also, ps[0].upper) + ps[0].space + Text(ps[1..])
  }

  function StoreAll(resp: Response, ps: seq<Pair>): Response
    decreases |ps|
  {
    if ps == [] then resp else StoreAll(Keep(resp, ps[0].key, ps[0].value), ps[1..])
  }

  lemma {:induction false} CStrWhole(v: string)
    requires NulFree(v)
    ensures CStr(v) == v
    decreases |v|
  {
    if v != "" {
      CStrWhole(v[1..]);
    }
  }

  lemma {:induction false} SkipSpaces(a: string, b: string)
    requires AllSpace(a)
    ensures SkipSpace(a + b) == SkipSpace(b)
    decreases |a|
  {
    if a == "" {
      assert a + b == b;
    } else {
      assert (a + b)[1..] == a[1..] + b;
      SkipSpaces(a[1..], b);
    }
  }

  lemma {:induction false} LettersOf(key: string, rest: string, acc: string)
    requires (forall i :: 0 <= i < |key| ==> IsAlpha(key[i])) && rest != "" && !IsAlpha(rest[0])
    ensures Letters(key + rest, acc) == acc + key
    decreases |key|
  {
    if key == "" {
      assert key + rest == rest && acc + key == acc;
    } else {
      assert (key + rest)[1..] == key[1..] + rest;
      LettersOf(key[1..], rest, acc + [key[0]]);
      assert acc + [key[0]] + key[1..] == acc + key;
    }
  }

  lemma {:induction false} KeyIsNoSpace(key: string, u: string)
    requires (forall i :: 0 <= i < |key| ==> IsAlpha(key[i])) && u != "" && u[0] == '='
    ensures SkipSpace(key + u) == key + u
  {
    assert (key + u)[0] == if key == "" then '=' else key[0];
  }

  /** Parsing one pair out of the front of a response. */
  lemma {:induction false} ParsePair(lead: string, p: Pair, rest: string, resp: Response)
    requires AllSpace(lead) && PairOk(p) && EndsValue(rest)
    ensures Parse(lead + (p.key + ("=" + (Encode(p.value, p.also, p.upper) + rest))), resp) ==
            Parse(rest, Keep(resp, p.key, p.value))
  {
    var enc := Encode(p.value, p.also, p.upper);
    var u := "=" + (enc + rest);
    SkipSpaces(lead, p.key + u);
    KeyIsNoSpace(p.key, u);
    LettersOf(p.key, u, "");
    assert "" + p.key == p.key && "" + p.value == p.value;
    assert u[1..] == enc + rest;
    TakeEncoded(p.value, p.also, p.upper, rest, "");
    ParseTurn(lead + (p.key + u), p.key, u, p.value, rest, resp);
    CStrWhole(p.value);
  }

  lemma {:induction false} SpaceEndsValue(space: string, rest: string)
    requires AllSpace(space) && (space == "" ==> rest == "")
    ensures EndsValue(space + rest)
  {}

  /** Any list of pairs, encoded and joined by any white space, parses back to the
      last value given for each key. */
  lemma {:induction false} ResponseRoundTrip(lead: string, ps: seq<Pair>, resp: Response)
    requires AllSpace(lead) && PairsOk(ps)
    ensures Parse(lead + Text(ps), resp) == Parsed(true, StoreAll(resp, ps))
    decreases |ps|
  {
    if ps == [] {
      SkipSpaces(lead, "");
    } else {
      var p, more := ps[0], Text(ps[1..]);
      var enc := Encode(p.value, p.also, p.upper);
      assert p.key + "=" + enc + p.space + more == p.key + ("=" + (enc + (p.space + more)));
      if p.space == "" {
        assert |ps| == 1;
      }
      SpaceEndsValue(p.space, more);
      ParsePair(lead, p, p.space + more, resp);
      ResponseRoundTrip(p.space, ps[1..], Keep(resp, p.key, p.value));
    }
  }

  function Get(resp: Response, key: string): Option<string> {
    if key == "result" then resp.result
    else if key == "status" then resp.status
    else if key == "title" then resp.title
    else if key == "state" then resp.state
    else None
  }

  predicate KnownKey(key: string) {
    key == "result" || key == "status" || key == "title" || key == "state"
  }

  lemma {:induction false} GetStored(resp: Response, key: string, value: string, other: string)
    requires KnownKey(other)
    ensures Get(Keep(resp, key, value), other) == if key == other then Some(value) else Get(resp, other)
  {}

  /** The last value given for a key is the one that is kept. */
  lemma {:induction false} LastValueKept(resp: Response, ps: seq<Pair>, i: nat)
    requires i < |ps| && KnownKey(ps[i].key) && forall j :: i < j < |ps| ==> ps[j].key != ps[i].key
    ensures Get(StoreAll(resp, ps), ps[i].key) == Some(ps[i].value)
    decreases |ps|
  {
    var next := Keep(resp, ps[0].key, ps[0].value);
    if i > 0 {
      LastValueKept(next, ps[1..], i - 1);
    } else {
      GetStored(resp, ps[0].key, ps[0].value, ps[0].key);
      Untouched(next, ps[1..], ps[0].key);
    }
  }

  lemma {:induction false} Untouched(resp: Response, ps: seq<Pair>, key: string)
    requires KnownKey(key) && forall j :: 0 <= j < |ps| ==> ps[j].key != key
    ensures Get(StoreAll(resp, ps), key) == Get(resp, key)
    decreases |ps|
  {
    if ps != [] {
      GetStored(resp, ps[0].key, ps[0].value, key);
      Untouched(Keep(resp, ps[0].key, ps[0].value), ps[1..], key);
    }
  }

  /** A value goes on up to the first character that is not a visible one. */
  lemma {:induction false} InValueIff(c: char)
    ensures InValue(c) <==> 33 <= c as int <= 126
  {}

  /** Two hexadecimal digits stand for the byte of that value. */
  lemma {:induction false} EscapeIs(s: string, acc: string)
    ensures TakeValue("%4a" + s, acc) == TakeValue(s, acc + ['J'])
  {
    var t := "%4a" + s;
    assert t[0] == '%' && t[1] == '4' && t[2] == 'a' && t[3..] == s;
  }

  /** The four keys, by their names. */
  lemma {:induction false} KeyNames(r: Response, v: string)
    ensures Keep(r, "title", v) == r.(title := Some(v)) && Keep(r, "status", v) == r.(status := Some(v))
    ensures Keep(r, "result", v) == r.(result := Some(v)) && Keep(r, "state", v) == r.(state := Some(v))
  {
    assert "title"[0] == 't' && "status"[0] == 's' && "result"[0] == 'r' && "state"[0] == 's';
    assert |"status"| != |"state"|;
  }
}
