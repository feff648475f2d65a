/** Request signing for the Last.fm authentication calls (src/scrobbler/lastfm_auth.rs):
    the Last.fm web-service signature is the MD5 of every request parameter written as
    key followed by value, in ascending key order, followed by the shared secret.
    MD5 itself (RFC 1321) is not modelled: it is an arbitrary function on bytes supplied by the caller.
    The HTTP requests and the console dialogue of the authentication flow are not part of this model. */
module LastFmAuth {
  import opened Wrappers

  type Byte = b: int | 0 <= b < 256

  /** `md5::compute`, left uninterpreted. */
  type Digest = seq<Byte> -> seq<Byte>

  // ---------------------------------------------------------------------------
  // The key order of a BTreeMap<String, String>

  /** Strict lexicographic order on strings, the order of Rust's `Ord` for `String`
      (comparing UTF-8 bytes orders strings exactly as comparing their code points does). */
  predicate Less(a: string, b: string) {
    |b| > 0 && (|a| == 0 || a[0] < b[0] || (a[0] == b[0] && Less(a[1..], b[1..])))
  }

  lemma {:induction false} LessIrreflexive(a: string)
    ensures !Less(a, a)
  {
    if |a| > 0 { LessIrreflexive(a[1..]); }
  }

  lemma {:induction false} LessTransitive(a: string, b: string, c: string)
    requires Less(a, b) && Less(b, c)
    ensures Less(a, c)
  {
    if |a| > 0 && a[0] == b[0] && b[0] == c[0] {
      LessTransitive(a[1..], b[1..], c[1..]);
    }
  }

  lemma {:induction false} LessTotal(a: string, b: string)
    ensures a == b || Less(a, b) || Less(b, a)
  {
    if |a| > 0 && |b| > 0 && a[0] == b[0] {
      LessTotal(a[1..], b[1..]);
      if a[1..] == b[1..] {
        assert a == [a[0]] + a[1..] && b == [b[0]] + b[1..];
      }
    }
  }

  // ---------------------------------------------------------------------------
  // The parameter map

  datatype Entry = Entry(key: string, value: string)

  /** The key of the i-th entry. */
  function KeyAt(es: seq<Entry>, i: nat): string
    requires i < |es|
  {
    es[i].key
  }

  predicate Sorted(es: seq<Entry>) {
    forall i, j :: 0 <= i < j < |es| ==> Less(KeyAt(es, i), KeyAt(es, j))
  }

  /** A `BTreeMap<String, String>`, kept as its entries in ascending key order, which is
      also the order in which `iter()` visits them. */
  type ParamMap = es: seq<Entry> | Sorted(es)

  /** Every key of `es` comes after `x`. */
  predicate Above(x: string, es: seq<Entry>) {
    forall i :: 0 <= i < |es| ==> Less(x, KeyAt(es, i))
  }

  /** The mapping the entries stand for. */
  function AsMap(es: seq<Entry>): map<string, string> {
    if |es| == 0 then map[] else AsMap(es[1..])[es[0].key := es[0].value]
  }

  lemma KeysShift(e: Entry, es: seq<Entry>)
    ensures forall i :: 0 <= i < |es| ==> KeyAt([e] + es, i + 1) == KeyAt(es, i)
    ensures 0 < |es| ==> forall i :: 0 <= i < |es| - 1 ==> KeyAt(es[1..], i) == KeyAt(es, i + 1)
  {
  }

  lemma AboveTail(x: string, es: seq<Entry>)
    requires Above(x, es) && |es| > 0
    ensures Above(x, es[1..]) && Less(x, es[0].key)
  {
    KeysShift(es[0], es);
    assert KeyAt(es, 0) == es[0].key;
  }

  lemma {:induction false} AboveKeys(x: string, es: seq<Entry>, k: string)
    requires Above(x, es) && k in AsMap(es)
    ensures Less(x, k)
  {
    AboveTail(x, es);
    if es[0].key != k {
      AboveKeys(x, es[1..], k);
    }
  }

  lemma SortedTail(es: ParamMap)
    requires |es| > 0
    ensures Sorted(es[1..]) && Above(es[0].key, es[1..])
  {
    KeysShift(es[0], es);
    assert KeyAt(es, 0) == es[0].key;
  }

  lemma SortedCons(e: Entry, es: ParamMap)
    requires Above(e.key, es)
    ensures Sorted([e] + es)
  {
    var r := [e] + es;
    KeysShift(e, es);
    forall i, j | 0 <= i < j < |r| ensures Less(KeyAt(r, i), KeyAt(r, j)) {
      assert KeyAt(r, j) == KeyAt(es, j - 1);
      if i > 0 {
        assert KeyAt(r, i) == KeyAt(es, i - 1);
      }
    }
  }

  lemma LessAll(k: string, es: ParamMap)
    requires |es| > 0 && Less(k, es[0].key)
    ensures Above(k, es)
  {
    forall i | 0 <= i < |es| ensures Less(k, KeyAt(es, i)) {
      if i > 0 { LessTransitive(k, KeyAt(es, 0), KeyAt(es, i)); }
    }
  }

  /** `BTreeMap::insert`: adds the entry in key order, or replaces the value of an existing key. */
  function Insert(m: ParamMap, k: string, v: string): (r: ParamMap)
    ensures AsMap(r) == AsMap(m)[k := v]
    ensures forall x :: Above(x, m) && Less(x, k) ==> Above(x, r)
  {
    if |m| == 0 then
      [Entry(k, v)]
    else if k == m[0].key then
      ReplaceHead(m, v);
      [Entry(k, v)] + m[1..]
    else if Less(k, m[0].key) then
      InsertBeforeHead(m, k, v);
      [Entry(k, v)] + m
    else
      SortedTail(m);
      LessTotal(k, m[0].key);
      var rest := Insert(m[1..], k, v);
      InsertAfterHead(m, k, v, rest);
      [m[0]] + rest
  }

  lemma ReplaceHead(m: ParamMap, v: string)
    requires |m| > 0
    ensures Sorted([Entry(m[0].key, v)] + m[1..])
    ensures AsMap([Entry(m[0].key, v)] + m[1..]) == AsMap(m)[m[0].key := v]
    ensures forall x :: Above(x, m) ==> Above(x, [Entry(m[0].key, v)] + m[1..])
  {
    var r := [Entry(m[0].key, v)] + m[1..];
    assert r[1..] == m[1..];
    assert forall i :: 0 <= i < |r| ==> KeyAt(r, i) == KeyAt(m, i);
    assert Sorted(r);
    assert AsMap(r) == AsMap(m)[m[0].key := v] by {
      assert AsMap(r) == AsMap(m[1..])[m[0].key := v];
      assert AsMap(m) == AsMap(m[1..])[m[0].key := m[0].value];
    }
  }

  lemma InsertBeforeHead(m: ParamMap, k: string, v: string)
    requires |m| > 0 && Less(k, m[0].key)
    ensures Sorted([Entry(k, v)] + m)
    ensures AsMap([Entry(k, v)] + m) == AsMap(m)[k := v]
    ensures forall x :: Above(x, m) && Less(x, k) ==> Above(x, [Entry(k, v)] + m)
  {
    LessAll(k, m);
    SortedCons(Entry(k, v), m);
    var r := [Entry(k, v)] + m;
    assert r[1..] == m;
    assert AsMap(r) == AsMap(m)[k := v];
    KeysShift(Entry(k, v), m);
    assert KeyAt(r, 0) == k;
    forall x | Above(x, m) && Less(x, k) ensures Above(x, r) {
      forall i | 0 <= i < |r| ensures Less(x, KeyAt(r, i)) {
        if i > 0 { assert KeyAt(r, i) == KeyAt(m, i - 1); }
      }
    }
  }

  lemma InsertAfterHead(m: ParamMap, k: string, v: string, rest: ParamMap)
    requires |m| > 0 && Less(m[0].key, k)
    requires AsMap(rest) == AsMap(m[1..])[k := v]
    requires Above(m[0].key, rest)
    ensures Sorted([m[0]] + rest)
    ensures AsMap([m[0]] + rest) == AsMap(m)[k := v]
    ensures forall x :: Above(x, m) ==> Above(x, [m[0]] + rest)
  {
    SortedCons(m[0], rest);
    AfterHeadMap(m, k, v, rest);
    AfterHeadAbove(m, rest);
  }

  lemma AfterHeadMap(m: ParamMap, k: string, v: string, rest: ParamMap)
    requires |m| > 0 && Less(m[0].key, k)
    requires AsMap(rest) == AsMap(m[1..])[k := v]
    ensures AsMap([m[0]] + rest) == AsMap(m)[k := v]
  {
    var r := [m[0]] + rest;
    assert r[1..] == rest;
    assert m[0].key != k by { LessIrreflexive(k); }
    assert AsMap(r) == AsMap(rest)[m[0].key := m[0].value];
    assert AsMap(m) == AsMap(m[1..])[m[0].key := m[0].value];
    UpdatesCommute(AsMap(m[1..]), k, v, m[0].key, m[0].value);
  }

  lemma AfterHeadAbove(m: ParamMap, rest: seq<Entry>)
    requires |m| > 0 && Above(m[0].key, rest)
    ensures forall x :: Above(x, m) ==> Above(x, [m[0]] + rest)
  {
    var r := [m[0]] + rest;
    KeysShift(m[0], rest);
    assert KeyAt(r, 0) == KeyAt(m, 0);
    forall x | Above(x, m) ensures Above(x, r) {
      forall i | 0 <= i < |r| ensures Less(x, KeyAt(r, i)) {
        if i > 0 {
          assert KeyAt(r, i) == KeyAt(rest, i - 1);
          LessTransitive(x, KeyAt(m, 0), KeyAt(r, i));
        }
      }
    }
  }

  /** The value stored under a key, if any. */
  function Lookup(es: seq<Entry>, k: string): (r: Option<string>)
    ensures r.Some? <==> k in AsMap(es)
    ensures r.Some? ==> r.value == AsMap(es)[k]
  {
    if |es| == 0 then None else if es[0].key == k then Some(es[0].value) else Lookup(es[1..], k)
  }

  /** The mapping without the keys in `drop`. */
  function Dropped(m: map<string, string>, drop: set<string>): map<string, string> {
    map k | k in m && k !in drop :: m[k]
  }

  /** The entries whose keys are not in `drop`, in their order. */
  function Without(es: ParamMap, drop: set<string>): (r: ParamMap)
    ensures AsMap(r) == Dropped(AsMap(es), drop)
    ensures forall x :: Above(x, es) ==> Above(x, r)
  {
    if |es| == 0 then []
    else
      SortedTail(es);
      var rest := Without(es[1..], drop);
      WithoutStep(es, drop, rest);
      if es[0].key in drop then rest else [es[0]] + rest
  }

  lemma WithoutStep(es: ParamMap, drop: set<string>, rest: ParamMap)
    requires |es| > 0
    requires AsMap(rest) == Dropped(AsMap(es[1..]), drop)
    requires forall x :: Above(x, es[1..]) ==> Above(x, rest)
    ensures es[0].key in drop ==>
      && AsMap(rest) == Dropped(AsMap(es), drop)
      && forall x :: Above(x, es) ==> Above(x, rest)
    ensures es[0].key !in drop ==>
      && Sorted([es[0]] + rest)
      && AsMap([es[0]] + rest) == Dropped(AsMap(es), drop)
      && forall x :: Above(x, es) ==> Above(x, [es[0]] + rest)
  {
    SortedTail(es);
    forall x | Above(x, es) ensures Above(x, es[1..]) && Less(x, es[0].key) {
      AboveTail(x, es);
    }
    var r := [es[0]] + rest;
    assert r[1..] == rest;
    var k0 := es[0].key;
    assert AsMap(es) == AsMap(es[1..])[k0 := es[0].value];
    if k0 in drop {
      assert Dropped(AsMap(es), drop) == Dropped(AsMap(es[1..]), drop);
    } else {
      SortedCons(es[0], rest);
      assert AsMap(r) == AsMap(rest)[k0 := es[0].value];
      assert Dropped(AsMap(es), drop) == Dropped(AsMap(es[1..]), drop)[k0 := es[0].value];
      KeysShift(es[0], rest);
      assert KeyAt(r, 0) == k0;
      forall x | Above(x, es) ensures Above(x, r) {
        forall i | 0 <= i < |r| ensures Less(x, KeyAt(r, i)) {
          if i > 0 { assert KeyAt(r, i) == KeyAt(rest, i - 1); }
        }
      }
    }
  }

  /** A map determines its sorted entries: the signature depends on the parameters, not on the
      order in which they were inserted. */
  lemma {:induction false} SortedUnique(a: ParamMap, b: ParamMap)
    requires AsMap(a) == AsMap(b)
    ensures a == b
  {
    if |a| > 0 || |b| > 0 {
      if |a| > 0 { assert a[0].key in AsMap(a); }
      if |b| > 0 { assert b[0].key in AsMap(b); }
      SortedTail(a);
      SortedTail(b);
      var ka, kb := a[0].key, b[0].key;
      assert AsMap(a) == AsMap(a[1..])[ka := a[0].value];
      assert AsMap(b) == AsMap(b[1..])[kb := b[0].value];
      if ka != kb {
        assert ka in AsMap(b[1..]);
        AboveKeys(kb, b[1..], ka);
        assert kb in AsMap(a[1..]);
        AboveKeys(ka, a[1..], kb);
        LessTransitive(ka, kb, ka);
        LessIrreflexive(ka);
      }
      assert ka !in AsMap(a[1..]) && ka !in AsMap(b[1..]) by {
        LessIrreflexive(ka);
        if ka in AsMap(a[1..]) { AboveKeys(ka, a[1..], ka); }
        if ka in AsMap(b[1..]) { AboveKeys(ka, b[1..], ka); }
      }
      assert AsMap(a[1..]) == AsMap(a) - {ka};
      assert AsMap(b[1..]) == AsMap(b) - {ka};
      SortedUnique(a[1..], b[1..]);
      assert a == [a[0]] + a[1..] && b == [b[0]] + b[1..];
    }
  }

  /** Inserting two different keys in either order gives the same map. */
  lemma InsertCommutes(m: ParamMap, k1: string, v1: string, k2: string, v2: string)
    requires k1 != k2
    ensures Insert(Insert(m, k1, v1), k2, v2) == Insert(Insert(m, k2, v2), k1, v1)
  {
    var a, b := Insert(Insert(m, k1, v1), k2, v2), Insert(Insert(m, k2, v2), k1, v1);
    UpdatesCommute(AsMap(m), k1, v1, k2, v2);
    SortedUnique(a, b);
  }

  lemma UpdatesCommute(mm: map<string, string>, k1: string, v1: string, k2: string, v2: string)
    requires k1 != k2
    ensures mm[k1 := v1][k2 := v2] == mm[k2 := v2][k1 := v1]
  {
  }

  // ---------------------------------------------------------------------------
  // The signed string

  /** `key1 value1 key2 value2 ...`, with nothing between the parts. */
  function PairString(es: seq<Entry>): string
    decreases |es|
  {
    if |es| == 0 then "" else PairString(es[..|es| - 1]) + es[|es| - 1].key + es[|es| - 1].value
  }

  /** The string that is hashed: every pair in key order, then the secret, exactly once, at the end. */
  function SignedString(params: ParamMap, apiSecret: string): string {
    PairString(params) + apiSecret
  }

  lemma {:induction false} PairStringConcat(a: seq<Entry>, b: seq<Entry>)
    ensures PairString(a + b) == PairString(a) + PairString(b)
    decreases |b|
  {
    if |b| == 0 {
      assert a + b == a;
    } else {
      var n := |b| - 1;
      var ab, last := a + b, b[n];
      assert ab[..|ab| - 1] == a + b[..n] && ab[|ab| - 1] == last;
      PairStringConcat(a, b[..n]);
      var pa, pb := PairString(a), PairString(b[..n]);
      calc {
        PairString(ab);
        PairString(a + b[..n]) + last.key + last.value;
        pa + pb + last.key + last.value;
        { assert pa + pb + last.key + last.value == pa + (pb + last.key + last.value); }
        pa + PairString(b);
      }
    }
  }

  /** Each of two entries contributes its key and then its value, in order. */
  lemma PairStringOfTwo(e1: Entry, e2: Entry)
    ensures PairString([e1]) == e1.key + e1.value
    ensures PairString([e1, e2]) == e1.key + e1.value + e2.key + e2.value
  {
    assert [e1][..0] == [];
    assert [e1, e2][..1] == [e1];
  }

  /** Each of three entries contributes its key and then its value, in order. */
  lemma PairStringOfThree(e1: Entry, e2: Entry, e3: Entry)
    ensures PairString([e1, e2, e3]) == e1.key + e1.value + e2.key + e2.value + e3.key + e3.value
  {
    PairStringOfTwo(e1, e2);
    assert [e1, e2, e3][..2] == [e1, e2];
  }

  // ---------------------------------------------------------------------------
  // Bytes and hex

  /** `str::as_bytes`: the UTF-8 encoding of a string. */
  function Utf8(s: string): (r: seq<Byte>)
    ensures |r| >= |s|
    ensures (forall i :: 0 <= i < |s| ==> s[i] as int < 0x80) ==>
      |r| == |s| && forall i :: 0 <= i < |s| ==> r[i] == s[i] as int
  {
    if |s| == 0 then []
    else
      var rest := Utf8(s[1..]);
      assert forall i :: 1 <= i < |s| ==> s[i] == s[1..][i - 1];
      EncodeChar(s[0]) + rest
  }

  function EncodeChar(c: char): (r: seq<Byte>)
    ensures 1 <= |r| <= 4
    ensures |r| == 1 <==> c as int < 0x80
  {
    var n := c as int;
    if n < 0x80 then [n]
    else if n < 0x800 then [0xC0 + n / 0x40, 0x80 + n % 0x40]
    else if n < 0x10000 then [0xE0 + n / 0x1000, 0x80 + (n / 0x40) % 0x40, 0x80 + n % 0x40]
    else [0xF0 + n / 0x40000, 0x80 + (n / 0x1000) % 0x40, 0x80 + (n / 0x40) % 0x40, 0x80 + n % 0x40]
  }

  const HexDigits: string := "0123456789abcdef"

  /** `format!("{:x}", digest)`: two lower-case hex digits per byte, high nibble first. */
  function LowerHex(bytes: seq<Byte>): (r: string)
    ensures |r| == 2 * |bytes|
  {
    if |bytes| == 0 then "" else [HexDigits[bytes[0] / 16], HexDigits[bytes[0] % 16]] + LowerHex(bytes[1..])
  }

  /** The rendering uses only the digits 0-9 and a-f. */
  lemma {:induction false} LowerHexDigits(bytes: seq<Byte>)
    ensures forall i :: 0 <= i < |LowerHex(bytes)| ==> LowerHex(bytes)[i] in HexDigits
  {
    if |bytes| > 0 {
      LowerHexDigits(bytes[1..]);
      var r, rest := LowerHex(bytes), LowerHex(bytes[1..]);
      assert forall i :: 2 <= i < |r| ==> r[i] == rest[i - 2];
    }
  }

  function HexValue(c: char): (n: nat)
    ensures n < 16
  {
    if '0' <= c <= '9' then c as int - '0' as int
    else if 'a' <= c <= 'f' then c as int - 'a' as int + 10
    else 0
  }

  lemma HexDigitValue(n: nat)
    requires n < 16
    ensures HexValue(HexDigits[n]) == n
  {
    if n < 10 {
      assert HexDigits[n] as int == '0' as int + n;
    } else {
      assert HexDigits[n] as int == 'a' as int + n - 10;
    }
  }

  /** Reads back a string of hex digit pairs. */
  function ParseHex(s: string): seq<Byte>
    decreases |s|
  {
    if |s| < 2 then [] else [16 * HexValue(s[0]) + HexValue(s[1])] + ParseHex(s[2..])
  }

  /** The hex rendering loses nothing: reading it back gives the digest's bytes. */
  lemma {:induction false} LowerHexRoundTrip(bytes: seq<Byte>)
    ensures ParseHex(LowerHex(bytes)) == bytes
  {
    if |bytes| > 0 {
      var r := LowerHex(bytes);
      assert r[2..] == LowerHex(bytes[1..]);
      assert ParseHex(r) == [16 * HexValue(r[0]) + HexValue(r[1])] + ParseHex(LowerHex(bytes[1..]));
      LowerHexRoundTrip(bytes[1..]);
      HexPair(bytes[0]);
      assert bytes == [bytes[0]] + bytes[1..];
    }
  }

  /** One byte's two digits read back as that byte. */
  lemma HexPair(b: Byte)
    ensures 16 * HexValue(HexDigits[b / 16]) + HexValue(HexDigits[b % 16]) == b
  {
    HexDigitValue(b / 16);
    HexDigitValue(b % 16);
  }

  // ---------------------------------------------------------------------------
  // generate_signature and the two signed requests

  /** `generate_signature`: builds the signed string pair by pair, appends the secret, and hashes it. */
  method GenerateSignature(params: ParamMap, apiSecret: string, md5: Digest) returns (sig: string)
    ensures sig == LowerHex(md5(Utf8(SignedString(params, apiSecret))))
    ensures |sig| == 2 * |md5(Utf8(SignedString(params, apiSecret)))|
  {
    var sigString := "";
    for i := 0 to |params|
      invariant sigString == PairString(params[..i])
    {
      assert params[..i + 1][..i] == params[..i];
      sigString := sigString + params[i].key;
      sigString := sigString + params[i].value;
    }
    assert params[..|params|] == params;
    sigString := sigString + apiSecret;
    sig := LowerHex(md5(Utf8(sigString)));
  }

  /** The parameters that are sent but never signed. */
  const Unsigned: set<string> := {"api_sig", "format"}

  /** The parameter names in key order. */
  lemma ParamNameOrder()
    ensures Less("api_key", "api_sig") && Less("api_sig", "format")
    ensures Less("format", "method") && Less("method", "token")
  {
    assert Less("key", "sig");
    assert "api_key"[1..] == "pi_key" && "api_sig"[1..] == "pi_sig";
    assert "pi_key"[1..] == "i_key" && "pi_sig"[1..] == "i_sig";
    assert "i_key"[1..] == "_key" && "i_sig"[1..] == "_sig";
    assert "_key"[1..] == "key" && "_sig"[1..] == "sig";
  }

  lemma LessDistinct(a: string, b: string)
    requires Less(a, b)
    ensures a != b && !Less(b, a)
  {
    LessIrreflexive(a);
    if Less(b, a) { LessTransitive(a, b, a); }
  }

  /** Inserting a key smaller than every key puts it first. */
  lemma InsertFirst(m: ParamMap, k: string, v: string)
    requires |m| > 0 && Less(k, m[0].key)
    ensures Insert(m, k, v) == [Entry(k, v)] + m
  {
    LessDistinct(k, m[0].key);
  }

  /** The entries after the first, again a parameter map. */
  function Tail(m: ParamMap): (r: ParamMap)
    requires |m| > 0
    ensures r == m[1..]
  {
    SortedTail(m);
    m[1..]
  }

  /** Inserting a key larger than the first key leaves the first entry in place. */
  lemma InsertPast(m: ParamMap, k: string, v: string)
    requires |m| > 0 && Less(m[0].key, k)
    ensures Insert(m, k, v) == [m[0]] + Insert(Tail(m), k, v)
  {
    LessDistinct(m[0].key, k);
  }

  /** One step of `Without`. */
  lemma WithoutHead(es: ParamMap, drop: set<string>)
    requires |es| > 0
    ensures es[0].key in drop ==> Without(es, drop) == Without(Tail(es), drop)
    ensures es[0].key !in drop ==> Without(es, drop) == [es[0]] + Without(Tail(es), drop)
  {
  }

  /** The five parameter names, pairwise ordered. */
  lemma ParamNamesDistinct()
    ensures Less("api_key", "api_sig") && Less("api_key", "format") && Less("api_key", "method") && Less("api_key", "token")
    ensures Less("api_sig", "format") && Less("api_sig", "method") && Less("api_sig", "token")
    ensures Less("format", "method") && Less("format", "token") && Less("method", "token")
    ensures "api_key" !in Unsigned && "method" !in Unsigned && "token" !in Unsigned
  {
    ParamNameOrder();
    LessTransitive("api_sig", "format", "method");
    LessTransitive("api_key", "api_sig", "format");
    LessTransitive("api_key", "format", "method");
    LessTransitive("api_key", "method", "token");
    LessTransitive("api_sig", "method", "token");
    LessTransitive("format", "method", "token");
    LessDistinct("api_key", "api_sig");
    LessDistinct("api_key", "format");
    LessDistinct("api_sig", "method");
    LessDistinct("format", "method");
    LessDistinct("api_sig", "token");
    LessDistinct("format", "token");
  }

  /** Inserting into an empty map. */
  lemma InsertEmpty(k: string, v: string)
    ensures Insert([], k, v) == [Entry(k, v)]
  {
  }

  /** Dropping keys a map does not hold changes nothing. */
  lemma {:induction false} WithoutKeepsAll(q: ParamMap, drop: set<string>)
    requires forall i :: 0 <= i < |q| ==> KeyAt(q, i) !in drop
    ensures Without(q, drop) == q
  {
    if |q| > 0 {
      var t := Tail(q);
      assert forall i :: 0 <= i < |t| ==> KeyAt(t, i) == KeyAt(q, i + 1);
      WithoutKeepsAll(t, drop);
      WithoutHead(q, drop);
      assert KeyAt(q, 0) == q[0].key;
    }
  }

  /** Dropping the second and third keys of a map. */
  lemma DropSecondThird(p: ParamMap, drop: set<string>)
    requires |p| >= 3 && p[0].key !in drop && p[1].key in drop && p[2].key in drop
    ensures Without(p, drop) == [p[0]] + Without(Tail(Tail(Tail(p))), drop)
  {
    WithoutHead(p, drop);
    WithoutHead(Tail(p), drop);
    WithoutHead(Tail(Tail(p)), drop);
  }

  /** Four keys in ascending order: inserting the outer two, then the inner two, gives all four in order. */
  lemma FourInserted(e1: Entry, e2: Entry, e3: Entry, e4: Entry)
    requires Less(e1.key, e2.key) && Less(e2.key, e3.key) && Less(e3.key, e4.key)
    ensures var outer := Insert(Insert([], e4.key, e4.value), e1.key, e1.value);
      && outer == [e1, e4]
      && Insert(Insert(outer, e2.key, e2.value), e3.key, e3.value) == [e1, e2, e3, e4]
  {
    LessTransitive(e2.key, e3.key, e4.key);
    LessTransitive(e1.key, e2.key, e3.key);
    LessTransitive(e1.key, e3.key, e4.key);
    var one := Insert([], e4.key, e4.value);
    InsertEmpty(e4.key, e4.value);
    var outer := Insert(one, e1.key, e1.value);
    InsertFirst(one, e1.key, e1.value);
    assert Tail(outer) == one;
    var inner := Insert(one, e2.key, e2.value);
    InsertFirst(one, e2.key, e2.value);
    var three := Insert(outer, e2.key, e2.value);
    InsertPast(outer, e2.key, e2.value);
    assert three[0] == e1 && inner[0] == e2;
    assert Tail(three) == inner && Tail(inner) == one;
    InsertFirst(one, e3.key, e3.value);
    InsertPast(inner, e3.key, e3.value);
    InsertPast(three, e3.key, e3.value);
  }

  /** ... and dropping the inner two gives back the outer two. */
  lemma FourLayout(e1: Entry, e2: Entry, e3: Entry, e4: Entry, drop: set<string>)
    requires Less(e1.key, e2.key) && Less(e2.key, e3.key) && Less(e3.key, e4.key)
    requires e1.key !in drop && e2.key in drop && e3.key in drop && e4.key !in drop
    ensures var outer := Insert(Insert([], e4.key, e4.value), e1.key, e1.value);
      && outer == [e1, e4]
      && Insert(Insert(outer, e2.key, e2.value), e3.key, e3.value) == [e1, e2, e3, e4]
      && Without(Insert(Insert(outer, e2.key, e2.value), e3.key, e3.value), drop) == outer
  {
    FourInserted(e1, e2, e3, e4);
    var outer := Insert(Insert([], e4.key, e4.value), e1.key, e1.value);
    var four := Insert(Insert(outer, e2.key, e2.value), e3.key, e3.value);
    DropSecondThird(four, drop);
    var last := Tail(Tail(Tail(four)));
    assert last == [e4] && KeyAt(last, 0) == e4.key;
    WithoutKeepsAll(last, drop);
  }

  /** Three ascending keys inserted middle, first, last come out in order. */
  lemma ThreeLayout(e1: Entry, e4: Entry, e5: Entry)
    requires Less(e1.key, e4.key) && Less(e4.key, e5.key)
    ensures Insert(Insert(Insert([], e4.key, e4.value), e1.key, e1.value), e5.key, e5.value) == [e1, e4, e5]
  {
    LessTransitive(e1.key, e4.key, e5.key);
    var one := Insert([], e4.key, e4.value);
    InsertEmpty(e4.key, e4.value);
    var two := Insert(one, e1.key, e1.value);
    InsertFirst(one, e1.key, e1.value);
    assert Tail(two) == one && Tail(one) == [];
    InsertPast(two, e5.key, e5.value);
    InsertPast(one, e5.key, e5.value);
    InsertEmpty(e5.key, e5.value);
  }

  /** Five ascending keys: inserting the second and third into the other three gives all five in order. */
  lemma FiveInserted(e1: Entry, e2: Entry, e3: Entry, e4: Entry, e5: Entry)
    requires Less(e1.key, e2.key) && Less(e2.key, e3.key) && Less(e3.key, e4.key) && Less(e4.key, e5.key)
    ensures var outer := Insert(Insert(Insert([], e4.key, e4.value), e1.key, e1.value), e5.key, e5.value);
      Insert(Insert(outer, e2.key, e2.value), e3.key, e3.value) == [e1, e2, e3, e4, e5]
  {
    LessTransitive(e2.key, e3.key, e4.key);
    LessTransitive(e1.key, e2.key, e4.key);
    LessTransitive(e1.key, e4.key, e5.key);
    LessTransitive(e1.key, e2.key, e3.key);
    ThreeLayout(e1, e4, e5);
    var outer := Insert(Insert(Insert([], e4.key, e4.value), e1.key, e1.value), e5.key, e5.value);
    var tail := Tail(outer);
    assert tail == [e4, e5];
    var inner := Insert(tail, e2.key, e2.value);
    InsertFirst(tail, e2.key, e2.value);
    var three := Insert(outer, e2.key, e2.value);
    InsertPast(outer, e2.key, e2.value);
    assert three[0] == e1 && inner[0] == e2;
    assert Tail(three) == inner && Tail(inner) == tail;
    InsertPast(inner, e3.key, e3.value);
    InsertFirst(tail, e3.key, e3.value);
    InsertPast(three, e3.key, e3.value);
  }

  /** Five ascending keys, the second and third of them dropped: inserting them into the other three
      gives all five in order, and dropping them gives back the other three. */
  lemma FiveLayout(e1: Entry, e2: Entry, e3: Entry, e4: Entry, e5: Entry, drop: set<string>)
    requires Less(e1.key, e2.key) && Less(e2.key, e3.key) && Less(e3.key, e4.key) && Less(e4.key, e5.key)
    requires e1.key !in drop && e2.key in drop && e3.key in drop && e4.key !in drop && e5.key !in drop
    ensures var outer := Insert(Insert(Insert([], e4.key, e4.value), e1.key, e1.value), e5.key, e5.value);
      && outer == [e1, e4, e5]
      && Insert(Insert(outer, e2.key, e2.value), e3.key, e3.value) == [e1, e2, e3, e4, e5]
      && Without(Insert(Insert(outer, e2.key, e2.value), e3.key, e3.value), drop) == outer
  {
    LessTransitive(e1.key, e2.key, e3.key);
    LessTransitive(e1.key, e3.key, e4.key);
    ThreeLayout(e1, e4, e5);
    FiveInserted(e1, e2, e3, e4, e5);
    var outer := Insert(Insert(Insert([], e4.key, e4.value), e1.key, e1.value), e5.key, e5.value);
    FiveDropped(Insert(Insert(outer, e2.key, e2.value), e3.key, e3.value), e1, e2, e3, e4, e5, drop);
  }

  lemma FiveDropped(five: ParamMap, e1: Entry, e2: Entry, e3: Entry, e4: Entry, e5: Entry, drop: set<string>)
    requires five == [e1, e2, e3, e4, e5]
    requires e1.key !in drop && e2.key in drop && e3.key in drop && e4.key !in drop && e5.key !in drop
    ensures Without(five, drop) == [e1, e4, e5]
  {
    DropSecondThird(five, drop);
    var last := Tail(Tail(Tail(five)));
    assert last == [e4, e5] && KeyAt(last, 0) == e4.key && KeyAt(last, 1) == e5.key;
    WithoutKeepsAll(last, drop);
  }

  /** The parameters of the `auth.getToken` request: `method` and `api_key` are signed,
      then `api_sig` and `format` are added. */
  method GetTokenParams(apiKey: string, apiSecret: string, md5: Digest) returns (params: ParamMap)
    ensures params == [
      Entry("api_key", apiKey),
      Entry("api_sig", LowerHex(md5(Utf8("api_key" + apiKey + "method" + "auth.getToken" + apiSecret)))),
      Entry("format", "json"),
      Entry("method", "auth.getToken")]
    ensures Lookup(params, "api_sig") == Some(LowerHex(md5(Utf8(SignedString(Without(params, Unsigned), apiSecret)))))
  {
    params := [];
    params := Insert(params, "method", "auth.getToken");
    params := Insert(params, "api_key", apiKey);
    var signed := params;
    var signature := GenerateSignature(params, apiSecret, md5);
    params := Insert(params, "api_sig", signature);
    params := Insert(params, "format", "json");
    ParamNamesDistinct();
    FourLayout(Entry("api_key", apiKey), Entry("api_sig", signature), Entry("format", "json"),
               Entry("method", "auth.getToken"), Unsigned);
    PairStringOfTwo(signed[0], signed[1]);
  }

  /** The parameters of the `auth.getSession` request: `method`, `api_key` and `token` are signed,
      then `api_sig` and `format` are added. */
  method GetSessionParams(apiKey: string, apiSecret: string, token: string, md5: Digest) returns (params: ParamMap)
    ensures params == [
      Entry("api_key", apiKey),
      Entry("api_sig", LowerHex(md5(Utf8("api_key" + apiKey + "method" + "auth.getSession" + "token" + token + apiSecret)))),
      Entry("format", "json"),
      Entry("method", "auth.getSession"),
      Entry("token", token)]
    ensures Lookup(params, "api_sig") == Some(LowerHex(md5(Utf8(SignedString(Without(params, Unsigned), apiSecret)))))
  {
    params := [];
    params := Insert(params, "method", "auth.getSession");
    params := Insert(params, "api_key", apiKey);
    params := Insert(params, "token", token);
    var signed := params;
    var signature := GenerateSignature(params, apiSecret, md5);
    params := Insert(params, "api_sig", signature);
    params := Insert(params, "format", "json");
    ParamNamesDistinct();
    FiveLayout(Entry("api_key", apiKey), Entry("api_sig", signature), Entry("format", "json"),
               Entry("method", "auth.getSession"), Entry("token", token), Unsigned);
    ThreeLayout(Entry("api_key", apiKey), Entry("method", "auth.getSession"), Entry("token", token));
    PairStringOfThree(signed[0], signed[1], signed[2]);
  }

  /** The inline `get_token` of src/scrobbler.rs writes its signed string out by hand; it is the
      same scheme applied to the two parameters it sends, with the method name spelled `auth.gettoken`. */
  lemma InlineGetTokenUsesSameScheme(apiKey: string, apiSecret: string)
    ensures "api_key" + apiKey + "method" + "auth.gettoken" + apiSecret
         == SignedString(Insert(Insert([], "method", "auth.gettoken"), "api_key", apiKey), apiSecret)
  {
    var params := Insert(Insert([], "method", "auth.gettoken"), "api_key", apiKey);
    assert params == [Entry("api_key", apiKey), Entry("method", "auth.gettoken")];
    PairStringOfTwo(params[0], params[1]);
  }
}
