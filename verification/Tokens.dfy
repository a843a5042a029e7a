/** Structured tokens `seiza_<kind>_<uuid...>_<secret>`: the printer and the parser undo each other. */
module Tokens {

  import opened Wrappers

  /** A UUID as its 32 hexadecimal digits. */
  type Uuid = d: seq<nat> | |d| == 32 && AllBelow16(d) witness seq(32, _ => 0)

  predicate AllBelow16(d: seq<nat>) { forall i :: 0 <= i < |d| ==> d[i] < 16 }

  const PREFIX: string := "seiza"
  const SEPARATOR: char := '_'

  // ---- UUID text ----

  function HexDigit(n: nat): (c: char)
    requires n < 16
    ensures c != SEPARATOR && HexValue(c) == Some(n)
  {
    if n < 10 then '0' + n as char else 'a' + (n - 10) as char
  }

  function HexValue(c: char): Option<nat> {
    if '0' <= c <= '9' then Some((c - '0') as nat)
    else if 'a' <= c <= 'f' then Some((c - 'a') as nat + 10)
    else if 'A' <= c <= 'F' then Some((c - 'A') as nat + 10)
    else None
  }

  /** The digits of either case, and nothing else, have values. */
  lemma HexValueIsExact(c: char, v: nat)
    ensures HexValue(c) == Some(v) <==> v < 16 && (c == "0123456789abcdef"[v] || c == "0123456789ABCDEF"[v])
  {}

  function HexText(d: seq<nat>): (s: string)
    requires AllBelow16(d)
    ensures |s| == |d| && forall i :: 0 <= i < |d| ==> s[i] == HexDigit(d[i])
  {
    seq(|d|, i requires 0 <= i < |d| => HexDigit(d[i]))
  }

  predicate AllHex(s: string) { forall i :: 0 <= i < |s| ==> HexValue(s[i]).Some? }

  function HexValues(s: string): (d: seq<nat>)
    requires AllHex(s)
    ensures |d| == |s| && forall i :: 0 <= i < |s| ==> Some(d[i]) == HexValue(s[i])
  {
    seq(|s|, i requires 0 <= i < |s| => HexValue(s[i]).value)
  }

  lemma HexBelow16(s: string)
    requires AllHex(s)
    ensures AllBelow16(HexValues(s))
  {
    forall i | 0 <= i < |s| ensures HexValues(s)[i] < 16 {
      assert Some(HexValues(s)[i]) == HexValue(s[i]);
    }
  }

  /** 32 digits in groups of 8, 4, 4, 4 and 12. */
  function Grouped(h: string): string
    requires |h| == 32
  {
    h[..8] + "-" + h[8..12] + "-" + h[12..16] + "-" + h[16..20] + "-" + h[20..]
  }

  /** The usual text of a UUID, with lower-case digits. */
  function UuidText(id: Uuid): string { Grouped(HexText(id)) }

  function ParseSimple(s: string): Option<Uuid> {
    if |s| == 32 && AllHex(s) then HexBelow16(s); Some(HexValues(s)) else None
  }

  function ParseHyphenated(s: string): Option<Uuid> {
    if |s| == 36 && s[8] == s[13] == s[18] == s[23] == '-'
    then ParseSimple(s[..8] + s[9..13] + s[14..18] + s[19..23] + s[24..]) else None
  }

  /** Digits alone, hyphenated, in braces, or as a URN; in either case of letters. */
  function ParseUuid(s: string): Option<Uuid> {
    if |s| == 32 then ParseSimple(s)
    else if |s| == 36 then ParseHyphenated(s)
    else if |s| == 38 && s[0] == '{' && s[37] == '}' then ParseHyphenated(s[1..37])
    else if |s| == 45 && s[..9] == "urn:uuid:" then ParseHyphenated(s[9..])
    else None
  }

  lemma UuidRoundTrip(id: Uuid)
    ensures ParseUuid(UuidText(id)) == Some(id)
    ensures SEPARATOR !in UuidText(id)
  {
    var h, s := HexText(id), UuidText(id);
    assert |s| == 36 && s[8] == s[13] == s[18] == s[23] == '-';
    assert s[..8] == h[..8] && s[9..13] == h[8..12] && s[14..18] == h[12..16] && s[19..23] == h[16..20] && s[24..] == h[20..];
    assert h == h[..8] + h[8..12] + h[12..16] + h[16..20] + h[20..];
    assert HexValues(h) == id;
    forall i | 0 <= i < 36 ensures s[i] != SEPARATOR {
      assert i < 8 ==> s[i] == h[i];
      assert 8 < i < 13 ==> s[i] == h[i - 1];
      assert 13 < i < 18 ==> s[i] == h[i - 2];
      assert 18 < i < 23 ==> s[i] == h[i - 3];
      assert 23 < i ==> s[i] == h[i - 4];
    }
  }

  /** What the parser accepts: digits of either case alone, in groups, in braces, or as a URN, and it reads their values. */
  predicate IsUuidText(s: string, h: string, id: Uuid) {
    && |h| == 32 && AllHex(h) && HexValues(h) == id
    && (s == h || s == Grouped(h) || s == "{" + Grouped(h) + "}" || s == "urn:uuid:" + Grouped(h))
  }

  lemma GroupedParses(h: string)
    requires |h| == 32 && AllHex(h)
    ensures AllBelow16(HexValues(h)) && ParseHyphenated(Grouped(h)) == Some(HexValues(h))
  {
    var s := Grouped(h);
    HexBelow16(h);
    assert |s| == 36 && s[8] == s[13] == s[18] == s[23] == '-';
    assert s[..8] == h[..8] && s[9..13] == h[8..12] && s[14..18] == h[12..16] && s[19..23] == h[16..20] && s[24..] == h[20..];
    assert h == h[..8] + h[8..12] + h[12..16] + h[16..20] + h[20..];
  }

  lemma GroupsOf(s: string) returns (h: string)
    requires ParseHyphenated(s).Some?
    ensures |h| == 32 && AllHex(h) && s == Grouped(h) && ParseHyphenated(s) == Some(HexValues(h))
  {
    h := s[..8] + s[9..13] + s[14..18] + s[19..23] + s[24..];
    assert h[..8] == s[..8] && h[8..12] == s[9..13] && h[12..16] == s[14..18] && h[16..20] == s[19..23] && h[20..] == s[24..];
    assert s == s[..8] + [s[8]] + s[9..13] + [s[13]] + s[14..18] + [s[18]] + s[19..23] + [s[23]] + s[24..];
  }

  /** Exactly those texts parse, to exactly those IDs. */
  lemma UuidTextsAreExact(s: string, id: Uuid) returns (h: string)
    ensures ParseUuid(s) == Some(id) ==> IsUuidText(s, h, id)
    ensures forall k :: IsUuidText(s, k, id) ==> ParseUuid(s) == Some(id)
  {
    h := "";
    forall k | IsUuidText(s, k, id) ensures ParseUuid(s) == Some(id) {
      GroupedParses(k);
      if s == "{" + Grouped(k) + "}" { assert s[1..37] == Grouped(k); }
      if s == "urn:uuid:" + Grouped(k) { assert s[..9] == "urn:uuid:" && s[9..] == Grouped(k); }
    }
    if ParseUuid(s) == Some(id) {
      if |s| == 32 {
        h := s;
      } else if |s| == 36 {
        h := GroupsOf(s);
      } else if |s| == 38 {
        h := GroupsOf(s[1..37]);
        assert s == [s[0]] + s[1..37] + [s[37]];
      } else {
        h := GroupsOf(s[9..]);
        assert s == s[..9] + s[9..];
      }
    }
  }

  // ---- Splitting ----

  /** The position of the first separator, or the length. */
  function FirstSeparator(s: string): (i: nat)
    ensures i <= |s| && SEPARATOR !in s[..i] && (i < |s| ==> s[i] == SEPARATOR)
  {
    if s == "" || s[0] == SEPARATOR then 0 else
    var i := 1 + FirstSeparator(s[1..]);
    assert s[..i] == [s[0]] + s[1..][..i - 1];
    i
  }

  /** `splitn(n, '_')`: at most `n` parts, the last one with everything that is left. */
  function SplitN(s: string, n: nat): seq<string>
    decreases n
  {
    if n == 0 then [] else
    var i := FirstSeparator(s);
    if n == 1 || i == |s| then [s] else [s[..i]] + SplitN(s[i + 1..], n - 1)
  }

  lemma {:induction false} FirstSeparatorIs(s: string, k: nat)
    requires k < |s| && s[k] == SEPARATOR && forall i :: 0 <= i < k ==> s[i] != SEPARATOR
    ensures FirstSeparator(s) == k
  {
    if k > 0 { FirstSeparatorIs(s[1..], k - 1); }
  }

  lemma SplitFirst(a: string, b: string, n: nat)
    requires SEPARATOR !in a && n >= 1
    ensures SplitN(a + [SEPARATOR] + b, n + 1) == [a] + SplitN(b, n)
  {
    var s := a + [SEPARATOR] + b;
    FirstSeparatorIs(s, |a|);
    assert s[..|a|] == a && s[|a| + 1..] == b;
  }

  lemma SeparatorFound(s: string)
    requires SEPARATOR in s
    ensures FirstSeparator(s) < |s|
  {
    assert s[..|s|] == s;
  }

  // ---- Tokens ----

  /** The parts in order, each followed by a separator, then the secret. */
  function Join(parts: seq<string>, secret: string): string {
    if parts == [] then secret else parts[0] + [SEPARATOR] + Join(parts[1..], secret)
  }

  function Texts(ids: seq<Uuid>): (r: seq<string>)
    ensures |r| == |ids| && forall i :: 0 <= i < |ids| ==> r[i] == UuidText(ids[i])
  {
    if ids == [] then [] else Texts(ids[..|ids| - 1]) + [UuidText(ids[|ids| - 1])]
  }

  function Tail(ids: seq<Uuid>, secret: string): string { Join(Texts(ids), secret) }

  function AfterPrefix(kind: string, ids: seq<Uuid>, secret: string): string { kind + [SEPARATOR] + Tail(ids, secret) }

  function Format(kind: string, ids: seq<Uuid>, secret: string): string {
    PREFIX + [SEPARATOR] + AfterPrefix(kind, ids, secret)
  }

  function ParseIds(texts: seq<string>): Option<seq<Uuid>> {
    if texts == [] then Some([]) else
    var before, last := ParseIds(texts[..|texts| - 1]), ParseUuid(texts[|texts| - 1]);
    if before.Some? && last.Some? then Some(before.value + [last.value]) else None
  }

  function Parse(token: string, kind: string, n: nat): Option<(seq<Uuid>, string)> {
    var parts := SplitN(token, 3 + n);
    if |parts| < 3 + n || parts[0] != PREFIX || parts[1] != kind then None else
    var ids, secret := ParseIds(parts[2..2 + n]), parts[2 + n];
    if ids.None? || secret == "" then None else Some((ids.value, secret))
  }

  lemma {:induction false} SplitJoin(parts: seq<string>, secret: string)
    requires forall i :: 0 <= i < |parts| ==> SEPARATOR !in parts[i]
    ensures SplitN(Join(parts, secret), |parts| + 1) == parts + [secret]
  {
    if parts != [] {
      var n, rest := |parts|, Join(parts[1..], secret);
      assert SplitN(rest, n) == parts[1..] + [secret] by { SplitJoin(parts[1..], secret); }
      assert SplitN(parts[0] + [SEPARATOR] + rest, n + 1) == [parts[0]] + SplitN(rest, n) by { SplitFirst(parts[0], rest, n); }
    }
  }

  lemma SplitTail(ids: seq<Uuid>, secret: string)
    ensures SplitN(Tail(ids, secret), |ids| + 1) == Texts(ids) + [secret]
  {
    forall i | 0 <= i < |ids| ensures SEPARATOR !in Texts(ids)[i] { UuidRoundTrip(ids[i]); }
    SplitJoin(Texts(ids), secret);
  }

  predicate TextsOf(texts: seq<string>, ids: seq<Uuid>) {
    |texts| == |ids| && forall i :: 0 <= i < |ids| ==> ParseUuid(texts[i]) == Some(ids[i])
  }

  lemma {:induction false} ParseTexts(texts: seq<string>, ids: seq<Uuid>)
    requires TextsOf(texts, ids)
    ensures ParseIds(texts) == Some(ids)
  {
    if texts != [] {
      var n := |ids| - 1;
      ParseTexts(texts[..n], ids[..n]);
      assert ids == ids[..n] + [ids[n]];
    }
  }

  lemma IdsRoundTrip(ids: seq<Uuid>)
    ensures ParseIds(Texts(ids)) == Some(ids)
  {
    forall i | 0 <= i < |ids| ensures ParseUuid(Texts(ids)[i]) == Some(ids[i]) { UuidRoundTrip(ids[i]); }
    ParseTexts(Texts(ids), ids);
  }

  lemma SplitPrefix(kind: string, ids: seq<Uuid>, secret: string, n: nat)
    ensures SplitN(Format(kind, ids, secret), 3 + n) == [PREFIX] + SplitN(AfterPrefix(kind, ids, secret), 2 + n)
  {
    SplitFirst(PREFIX, AfterPrefix(kind, ids, secret), 2 + n);
  }

  lemma SplitKind(kind: string, ids: seq<Uuid>, secret: string, n: nat)
    requires SEPARATOR !in kind
    ensures SplitN(AfterPrefix(kind, ids, secret), 2 + n) == [kind] + SplitN(Tail(ids, secret), 1 + n)
  {
    SplitFirst(kind, Tail(ids, secret), 1 + n);
  }

  /** Where a kind holds the separator, the second part of the token is not the kind. */
  lemma SeparatorInKind(kind: string, ids: seq<Uuid>, secret: string, n: nat)
    requires SEPARATOR in kind
    ensures Parse(Format(kind, ids, secret), kind, n).None?
  {
    var rest := AfterPrefix(kind, ids, secret);
    SplitPrefix(kind, ids, secret, n);
    var i := FirstSeparator(kind);
    SeparatorFound(kind);
    forall j | 0 <= j < i ensures rest[j] != SEPARATOR { assert kind[..i][j] == rest[j]; }
    FirstSeparatorIs(rest, i);
    assert |SplitN(rest, 2 + n)[0]| == i;
  }

  lemma PartsRoundTrip(parts: seq<string>, kind: string, texts: seq<string>, secret: string)
    requires parts == [PREFIX] + ([kind] + (texts + [secret]))
    ensures parts[0] == PREFIX && parts[1] == kind && parts[2..2 + |texts|] == texts && parts[2 + |texts|] == secret
  {
  }

  /**
   Parsing a formatted token with the same kind and number of IDs gives back the
   IDs and the secret, separators in the secret included, exactly when the
   secret is not empty and the kind holds no separator.
   */
  lemma TokenRoundTrip(kind: string, ids: seq<Uuid>, secret: string)
    ensures Parse(Format(kind, ids, secret), kind, |ids|) == Some((ids, secret)) <==> secret != "" && SEPARATOR !in kind
  {
    if SEPARATOR in kind {
      SeparatorInKind(kind, ids, secret, |ids|);
    } else {
      SplitPrefix(kind, ids, secret, |ids|);
      SplitKind(kind, ids, secret, |ids|);
      SplitTail(ids, secret);
      IdsRoundTrip(ids);
      PartsRoundTrip(SplitN(Format(kind, ids, secret), 3 + |ids|), kind, Texts(ids), secret);
    }
  }

  lemma JoinFirst(first: string, parts: seq<string>, secret: string)
    ensures Join([first] + parts, secret) == first + [SEPARATOR] + Join(parts, secret)
  {
    assert ([first] + parts)[1..] == parts;
  }

  lemma {:induction false} JoinSplit(s: string, n: nat, parts: seq<string>)
    requires n >= 1 && parts == SplitN(s, n) && |parts| == n
    ensures Join(parts[..n - 1], parts[n - 1]) == s
    decreases n
  {
    if n > 1 {
      var i := FirstSeparator(s);
      var rest := SplitN(s[i + 1..], n - 1);
      JoinSplit(s[i + 1..], n - 1, rest);
      JoinOne(s, s[..i], s[i + 1..], rest, n);
    } else {
      assert parts == [s] && Join([], s) == s;
    }
  }

  lemma JoinOne(s: string, first: string, tail: string, rest: seq<string>, n: nat)
    requires n > 1 && |rest| == n - 1 && s == first + [SEPARATOR] + tail
    requires Join(rest[..n - 2], rest[n - 2]) == tail
    ensures Join(([first] + rest)[..n - 1], ([first] + rest)[n - 1]) == s
  {
    JoinFirst(first, rest[..n - 2], rest[n - 2]);
    assert ([first] + rest)[..n - 1] == [first] + rest[..n - 2];
  }

  lemma {:induction false} ParsedTexts(texts: seq<string>)
    requires ParseIds(texts).Some?
    ensures TextsOf(texts, ParseIds(texts).value)
  {
    if texts != [] { ParsedTexts(texts[..|texts| - 1]); }
  }

  /**
   Whatever parses is `seiza_`, the kind, as many texts of UUIDs as were asked for
   and a secret that is not empty, and the parser returns those UUIDs and that secret.
   */
  lemma ParsedIsAToken(token: string, kind: string, n: nat) returns (texts: seq<string>)
    requires Parse(token, kind, n).Some?
    ensures var (ids, secret) := Parse(token, kind, n).value;
      && token == "seiza_" + kind + "_" + Join(texts, secret) && secret != ""
      && |texts| == n && TextsOf(texts, ids)
  {
    var parts := SplitN(token, 3 + n);
    SplitLength(token, 3 + n);
    JoinSplit(token, 3 + n, parts);
    texts := parts[2..2 + n];
    ParsedTexts(texts);
    JoinParts(parts[..2 + n], kind, texts, parts[2 + n]);
  }

  lemma JoinParts(parts: seq<string>, kind: string, texts: seq<string>, secret: string)
    requires parts == [PREFIX] + ([kind] + texts)
    ensures Join(parts, secret) == "seiza_" + kind + "_" + Join(texts, secret)
  {
    JoinFirst(PREFIX, [kind] + texts, secret);
    JoinFirst(kind, texts, secret);
    assert "seiza_" == PREFIX + [SEPARATOR] && "_" == [SEPARATOR];
  }

  /** A token of one kind never parses as another, whatever number of IDs is expected. */
  lemma KindsAreDisjoint(kind: string, other: string, ids: seq<Uuid>, secret: string, n: nat)
    requires SEPARATOR !in kind && kind != other
    ensures Parse(Format(kind, ids, secret), other, n).None?
  {
    SplitPrefix(kind, ids, secret, n);
    SplitKind(kind, ids, secret, n);
  }

  // ---- The server's loops ----

  lemma JoinStep(before: string, parts: seq<string>, i: nat, secret: string)
    requires i < |parts|
    ensures before + [SEPARATOR] + Join(parts[i..], secret)
         == before + [SEPARATOR] + parts[i] + [SEPARATOR] + Join(parts[i + 1..], secret)
  {
    assert parts[i..][1..] == parts[i + 1..];
  }

  method FormatPrefixedToken(kind: string, ids: seq<Uuid>, secret: string) returns (token: string)
    ensures token == Format(kind, ids, secret)
  {
    token := PREFIX + [SEPARATOR] + kind;
    ghost var texts := Texts(ids);
    assert texts[0..] == texts;
    for i := 0 to |ids|
      invariant token + [SEPARATOR] + Join(texts[i..], secret) == Format(kind, ids, secret)
    {
      JoinStep(token, texts, i, secret);
      token := token + [SEPARATOR];
      token := token + UuidText(ids[i]);
    }
    token := token + [SEPARATOR];
    token := token + secret;
  }

  method ParsePrefixedToken(token: string, kind: string, n: nat) returns (r: Option<(seq<Uuid>, string)>)
    ensures r == Parse(token, kind, n)
  {
    var components := SplitN(token, 3 + n);
    SplitLength(token, 3 + n);
    if components[0] != PREFIX || |components| < 2 || components[1] != kind {
      return None;
    }
    var ids := ReadIds(components[2..], n);
    if ids.None? || |components| < 3 + n || components[2 + n] == "" {
      assert |components| >= 3 + n ==> components[2..2 + n] == components[2..][..n];
      return None;
    }
    assert components[2..2 + n] == components[2..][..n];
    r := Some((ids.value, components[2 + n]));
  }

  /** The first `n` texts as IDs; none if one is missing or does not parse. */
  method ReadIds(texts: seq<string>, n: nat) returns (ids: Option<seq<Uuid>>)
    ensures ids == if |texts| < n then None else ParseIds(texts[..n])
  {
    var read: seq<Uuid> := [];
    for i := 0 to n
      invariant i <= |texts| && ParseIds(texts[..i]) == Some(read)
    {
      if i == |texts| {
        return None;
      }
      assert texts[..i + 1][..i] == texts[..i];
      var id := ParseUuid(texts[i]);
      if id.None? {
        if n <= |texts| {
          assert texts[..n][..i + 1] == texts[..i + 1];
          ParseIdsPrefix(texts[..n], i + 1);
        }
        return None;
      }
      read := read + [id.value];
    }
    ids := Some(read);
  }

  lemma {:induction false} SplitLength(s: string, n: nat)
    requires n >= 1
    ensures 1 <= |SplitN(s, n)| <= n
  {
    if n > 1 && FirstSeparator(s) < |s| { SplitLength(s[FirstSeparator(s) + 1..], n - 1); }
  }

  /** One bad ID makes the whole list bad. */
  lemma {:induction false} ParseIdsPrefix(texts: seq<string>, k: nat)
    requires k <= |texts| && ParseIds(texts[..k]).None?
    ensures ParseIds(texts).None?
    decreases |texts|
  {
    if k == |texts| {
      assert texts[..k] == texts;
    } else {
      assert texts[..|texts| - 1][..k] == texts[..k];
      ParseIdsPrefix(texts[..|texts| - 1], k);
    }
  }
}
