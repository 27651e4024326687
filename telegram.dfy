/**
 * Telegram login-widget verification as `verifyTelegramAuth` in
 * handler/user.go does it: a data-check-string built from four fields, its
 * HMAC-SHA-256 keyed with the SHA-256 digest of the bot token, a lowercase hex
 * comparison with the received hash, then the `auth_date` parse and a 24-hour
 * freshness check. The hash functions are parameters: the model says how they
 * are composed, not how they compute.
 */
module TelegramAuth {
  import opened Common

  // ---------------------------------------------------------------------
  // Go's string order and `sort.Strings`
  // ---------------------------------------------------------------------

  /**
   * Go's `<` on strings: byte-wise lexicographic order. The UTF-8 encoding
   * preserves the order of code points, so comparing characters agrees.
   */
  predicate Less(a: string, b: string)
    decreases |a|
  {
    |b| > 0 && (|a| == 0 || a[0] < b[0] || (a[0] == b[0] && Less(a[1..], b[1..])))
  }

  lemma {:induction false} LessIrreflexive(a: string)
    ensures !Less(a, a)
  {
    if |a| > 0 {
      LessIrreflexive(a[1..]);
    }
  }

  lemma {:induction false} LessTransitive(a: string, b: string, c: string)
    requires Less(a, b) && Less(b, c)
    ensures Less(a, c)
  {
    if |a| > 0 && a[0] == b[0] && b[0] == c[0] {
      LessTransitive(a[1..], b[1..], c[1..]);
    }
  }

  lemma {:induction false} LessTotal(a: string, b: string)
    requires a != b
    ensures Less(a, b) || Less(b, a)
  {
    if |a| > 0 && |b| > 0 && a[0] == b[0] {
      assert a == [a[0]] + a[1..] && b == [b[0]] + b[1..];
      LessTotal(a[1..], b[1..]);
    }
  }

  lemma {:induction false} LessAsymmetric(a: string, b: string)
    ensures Less(a, b) ==> !Less(b, a)
  {
    if |a| > 0 && |b| > 0 && a[0] == b[0] {
      LessAsymmetric(a[1..], b[1..]);
    }
  }

  /** "Not less" is transitive: the order is total. */
  lemma NotLessTransitive(a: string, b: string, c: string)
    requires !Less(b, a) && !Less(c, b)
    ensures !Less(c, a)
  {
    if Less(c, a) {
      if a == b {
      } else {
        LessTotal(a, b);
        LessTransitive(c, a, b);
      }
    }
  }

  /** Ascending order with respect to `Less`. */
  ghost predicate Sorted(s: seq<string>)
  {
    forall i, j :: 0 <= i < j < |s| ==> !Less(s[j], s[i])
  }

  /** Insertion of `x` before the first element that is not less than it. */
  function Insert(x: string, s: seq<string>): (r: seq<string>)
    ensures multiset(r) == multiset(s) + multiset{x}
    ensures |r| == |s| + 1
  {
    if |s| == 0 || !Less(s[0], x) then [x] + s
    else assert s == [s[0]] + s[1..]; [s[0]] + Insert(x, s[1..])
  }

  lemma {:induction false} InsertSorted(x: string, s: seq<string>)
    requires Sorted(s)
    ensures Sorted(Insert(x, s))
  {
    var r := Insert(x, s);
    if |s| == 0 || !Less(s[0], x) {
      forall i, j | 0 <= i < j < |r| ensures !Less(r[j], r[i]) {
        if i == 0 && j > 1 {
          NotLessTransitive(x, s[0], s[j - 1]);
        }
      }
    } else {
      var t := s[1..];
      SortedTail(s);
      InsertSorted(x, t);
      var rt := Insert(x, t);
      assert r == [s[0]] + rt;
      LessAsymmetric(s[0], x);
      forall k | 0 <= k < |t| ensures !Less(t[k], s[0]) {
        assert t[k] == s[k + 1];
      }
      InsertLowerBound(x, s[0], t);
      forall i, j | 0 <= i < j < |r| ensures !Less(r[j], r[i]) {
        if i == 0 {
          assert r[j] == rt[j - 1];
        } else {
          assert r[i] == rt[i - 1] && r[j] == rt[j - 1];
        }
      }
    }
  }

  /** Inserting an element that is not below `y` into elements not below `y` keeps them all not below `y`. */
  lemma InsertLowerBound(x: string, y: string, t: seq<string>)
    requires forall k :: 0 <= k < |t| ==> !Less(t[k], y)
    requires !Less(x, y)
    ensures forall j :: 0 <= j < |Insert(x, t)| ==> !Less(Insert(x, t)[j], y)
  {
    var rt := Insert(x, t);
    forall j | 0 <= j < |rt| ensures !Less(rt[j], y) {
      assert rt[j] in multiset(rt);
      if rt[j] != x {
        assert rt[j] in multiset(t);
        var k :| 0 <= k < |t| && t[k] == rt[j];
      }
    }
  }

  /** A reference sort (insertion sort) standing for `sort.Strings`. */
  function SortStrings(s: seq<string>): (r: seq<string>)
    ensures multiset(r) == multiset(s)
    ensures |r| == |s|
  {
    if |s| == 0 then [] else assert s == [s[0]] + s[1..]; Insert(s[0], SortStrings(s[1..]))
  }

  lemma {:induction false} SortStringsSorted(s: seq<string>)
    ensures Sorted(SortStrings(s))
  {
    if |s| > 0 {
      SortStringsSorted(s[1..]);
      InsertSorted(s[0], SortStrings(s[1..]));
    }
  }

  /** No element of a sorted sequence is less than its head. */
  lemma HeadIsLeast(s: seq<string>, x: string)
    requires Sorted(s) && x in multiset(s)
    ensures |s| > 0 && !Less(x, s[0])
  {
    var k :| 0 <= k < |s| && s[k] == x;
    if k == 0 {
      LessIrreflexive(x);
    }
  }

  lemma SortedTail(s: seq<string>)
    requires Sorted(s) && |s| > 0
    ensures Sorted(s[1..])
  {
    forall i, j | 0 <= i < j < |s| - 1 ensures !Less(s[1..][j], s[1..][i]) {
      assert s[1..][j] == s[j + 1] && s[1..][i] == s[i + 1];
    }
  }

  lemma MultisetTail(s: seq<string>, t: seq<string>)
    requires |s| > 0 && |t| > 0 && s[0] == t[0] && multiset(s) == multiset(t)
    ensures multiset(s[1..]) == multiset(t[1..])
  {
    assert s == [s[0]] + s[1..] && t == [t[0]] + t[1..];
    assert multiset(s[1..]) == multiset(s) - multiset{s[0]};
    assert multiset(t[1..]) == multiset(t) - multiset{t[0]};
  }

  /**
   * A sorted arrangement of a multiset of strings is unique, so every correct
   * sort (`sort.Strings` included) agrees with `SortStrings`.
   */
  lemma {:induction false} SortedUnique(s: seq<string>, t: seq<string>)
    requires Sorted(s) && Sorted(t) && multiset(s) == multiset(t)
    ensures s == t
  {
    if |s| == 0 {
      assert |t| == |multiset(t)| == 0;
    } else {
      assert s[0] in multiset(s);
      HeadIsLeast(t, s[0]);
      HeadIsLeast(s, t[0]);
      if s[0] != t[0] {
        LessTotal(s[0], t[0]);
      }
      MultisetTail(s, t);
      SortedTail(s);
      SortedTail(t);
      SortedUnique(s[1..], t[1..]);
      assert s == [s[0]] + s[1..] && t == [t[0]] + t[1..];
    }
  }

  // ---------------------------------------------------------------------
  // The data-check-string
  // ---------------------------------------------------------------------

  /** The login payload as the handler decodes it. */
  datatype AuthData = AuthData(id: string, firstName: string, username: string, authDate: string, hash: string)

  /** The keys of `dataMap`, in the order its literal lists them. */
  const MapKeys: seq<string> := ["id", "first_name", "username", "auth_date"]

  /** The same keys in byte-wise ascending order. */
  const SortedKeys: seq<string> := ["auth_date", "first_name", "id", "username"]

  /** The `dataMap` literal: the four fields under their JSON names. */
  function DataMap(data: AuthData): map<string, string>
  {
    map["id" := data.id, "first_name" := data.firstName, "username" := data.username, "auth_date" := data.authDate]
  }

  /** `dataMap[k]`: the field under that key, and for any other key the empty string, Go's zero value. */
  function Field(data: AuthData, k: string): (r: string)
    ensures k in DataMap(data) ==> r == DataMap(data)[k]
    ensures k !in DataMap(data) ==> r == ""
    ensures k in MapKeys <==> k in DataMap(data)
  {
    if k == "id" then data.id
    else if k == "first_name" then data.firstName
    else if k == "username" then data.username
    else if k == "auth_date" then data.authDate
    else ""
  }

  /** Appending a part appends one separator and that part: separators stand only between neighbours. */
  lemma {:induction false} JoinSnoc(parts: seq<string>, p: string, sep: string)
    requires |parts| > 0
    ensures Join(parts + [p], sep) == Join(parts, sep) + sep + p
  {
    if |parts| > 1 {
      assert (parts + [p])[1..] == parts[1..] + [p];
      JoinSnoc(parts[1..], p, sep);
    } else {
      assert (parts + [p])[1..] == [p];
    }
  }

  /** The total length of some strings. */
  function TotalLength(parts: seq<string>): nat
  {
    if |parts| == 0 then 0 else |parts[0]| + TotalLength(parts[1..])
  }

  /** `strings.Join`: a separator between neighbours, none before the first or after the last. */
  function Join(parts: seq<string>, sep: string): (r: string)
    ensures |parts| > 0 ==> |r| == TotalLength(parts) + (|parts| - 1) * |sep|
  {
    if |parts| == 0 then ""
    else if |parts| == 1 then parts[0]
    else parts[0] + sep + Join(parts[1..], sep)
  }

  /** The `fmt.Sprintf("%s=%s", k, dataMap[k])` lines, in the order of `keys`. */
  function Lines(data: AuthData, keys: seq<string>): (r: seq<string>)
    ensures |r| == |keys|
    ensures forall k :: 0 <= k < |keys| ==> r[k] == keys[k] + "=" + Field(data, keys[k])
  {
    if |keys| == 0 then [] else [keys[0] + "=" + Field(data, keys[0])] + Lines(data, keys[1..])
  }

  /**
   * The data-check-string. `order` is the order in which ranging over the Go
   * map yields its keys, which Go leaves unspecified; they are sorted before use.
   */
  function CheckString(data: AuthData, order: seq<string>): (r: string)
    requires multiset(order) == multiset(MapKeys)
    ensures r == CanonicalCheckString(data)
  {
    SortOfAnyOrder(order);
    JoinSortedLines(data);
    Join(Lines(data, SortStrings(order)), "\n")
  }

  /**
   * The check-string whatever order the map yields its keys in: the four pairs
   * in sorted key order, joined by single newlines, without a trailing
   * newline; the hash and every other field stay out of it.
   */
  function CanonicalCheckString(data: AuthData): string
  {
    var authDate := "auth_date=" + data.authDate;
    var firstName := "first_name=" + data.firstName;
    var id := "id=" + data.id;
    var username := "username=" + data.username;
    authDate + "\n" + firstName + "\n" + id + "\n" + username
  }

  lemma SortedKeysSorted()
    ensures Sorted(SortedKeys)
    ensures multiset(SortedKeys) == multiset(MapKeys)
  {
    assert SortedKeys[0][0] == 'a' && SortedKeys[1][0] == 'f' && SortedKeys[2][0] == 'i' && SortedKeys[3][0] == 'u';
  }

  /** Sorting any arrangement of the map's keys gives the keys in ascending order. */
  lemma SortOfAnyOrder(order: seq<string>)
    requires multiset(order) == multiset(MapKeys)
    ensures SortStrings(order) == SortedKeys
  {
    SortStringsSorted(order);
    SortedKeysSorted();
    SortedUnique(SortStrings(order), SortedKeys);
  }

  lemma LinesOfSortedKeys(data: AuthData)
    ensures Lines(data, SortedKeys) ==
      ["auth_date=" + data.authDate, "first_name=" + data.firstName, "id=" + data.id, "username=" + data.username]
  {
    assert |"auth_date"| == 9 && |"first_name"| == 10 && |"id"| == 2 && |"username"| == 8;
    var ls := Lines(data, SortedKeys);
    assert ls[0] == "auth_date=" + data.authDate;
    assert ls[1] == "first_name=" + data.firstName;
    assert ls[2] == "id=" + data.id;
    assert ls[3] == "username=" + data.username;
  }

  lemma JoinFour(a: string, b: string, c: string, d: string, sep: string)
    ensures Join([a, b, c, d], sep) == a + sep + b + sep + c + sep + d
  {
    var ls := [a, b, c, d];
    assert ls[1..] == [b, c, d] && ls[1..][1..] == [c, d] && ls[1..][1..][1..] == [d];
    assert Join([c, d], sep) == c + sep + d;
    assert Join([b, c, d], sep) == b + sep + (c + sep + d);
    assert Join(ls, sep) == a + sep + (b + sep + (c + sep + d));
  }

  lemma JoinSortedLines(data: AuthData)
    ensures Join(Lines(data, SortedKeys), "\n") == CanonicalCheckString(data)
  {
    LinesOfSortedKeys(data);
    JoinFour("auth_date=" + data.authDate, "first_name=" + data.firstName, "id=" + data.id, "username=" + data.username, "\n");
  }

  // ---------------------------------------------------------------------
  // Lowercase hex encoding (`hex.EncodeToString`) and its inverse
  // ---------------------------------------------------------------------

  newtype byte = x: int | 0 <= x < 256

  function HexDigit(n: int): (c: char)
    requires 0 <= n < 16
  {
    if n < 10 then ('0' as int + n) as char else ('a' as int + n - 10) as char
  }

  predicate IsLowerHex(c: char)
  {
    '0' <= c <= '9' || 'a' <= c <= 'f'
  }

  /** The value of a hex digit in either case, as `hex.DecodeString` reads it. */
  function HexValue(c: char): (r: Option<int>)
    ensures r.Some? ==> 0 <= r.value < 16
  {
    if '0' <= c <= '9' then Some(c as int - '0' as int)
    else if 'a' <= c <= 'f' then Some(c as int - 'a' as int + 10)
    else if 'A' <= c <= 'F' then Some(c as int - 'A' as int + 10)
    else None
  }

  /** Two lowercase hex digits per byte, high nibble first. */
  function HexEncode(b: seq<byte>): (s: string)
    ensures |s| == 2 * |b|
    ensures forall k :: 0 <= k < |s| ==> IsLowerHex(s[k])
  {
    if |b| == 0 then ""
    else [HexDigit(b[0] as int / 16), HexDigit(b[0] as int % 16)] + HexEncode(b[1..])
  }

  /** `hex.DecodeString`: fails on an odd length or a non-hex character. */
  function HexDecode(s: string): Option<seq<byte>>
    decreases |s|
  {
    if |s| == 0 then Some([])
    else if |s| == 1 then None
    else match (HexValue(s[0]), HexValue(s[1]), HexDecode(s[2..]))
      case (Some(hi), Some(lo), Some(rest)) => Some([(hi * 16 + lo) as byte] + rest)
      case _ => None
  }

  /** Decoding undoes encoding; in particular the encoding is injective. */
  lemma {:induction false} HexRoundTrip(b: seq<byte>)
    ensures HexDecode(HexEncode(b)) == Some(b)
  {
    if |b| > 0 {
      var s := HexEncode(b);
      assert s[2..] == HexEncode(b[1..]);
      HexRoundTrip(b[1..]);
      assert HexValue(s[0]) == Some(b[0] as int / 16);
      assert HexValue(s[1]) == Some(b[0] as int % 16);
      assert b == [b[0]] + b[1..];
    }
  }

  // ---------------------------------------------------------------------
  // strconv.ParseInt(s, 10, 64)
  // ---------------------------------------------------------------------

  datatype NumError = ErrSyntax | ErrRange

  datatype Parsed = Value(n: int) | Error(err: NumError)

  const MaxUint64: int := 0xFFFF_FFFF_FFFF_FFFF
  const MinInt64: int := -0x8000_0000_0000_0000
  const MaxInt64: int := 0x7FFF_FFFF_FFFF_FFFF

  /** `maxUint64/10 + 1`: an accumulator at or above it overflows when multiplied by ten. */
  const Cutoff10: int := MaxUint64 / 10 + 1

  predicate IsDigit(c: char)
  {
    '0' <= c <= '9'
  }

  function DigitValue(c: char): (d: int)
    requires IsDigit(c)
    ensures 0 <= d < 10
  {
    c as int - '0' as int
  }

  function Pow10(k: nat): (p: nat)
    ensures p >= 1
  {
    if k == 0 then 1 else 10 * Pow10(k - 1)
  }

  predicate AllDigits(s: string)
  {
    forall k :: 0 <= k < |s| ==> IsDigit(s[k])
  }

  /** The number a string of decimal digits denotes. */
  function DigitsValue(s: string): nat
    requires AllDigits(s)
  {
    if |s| == 0 then 0 else DigitValue(s[0]) * Pow10(|s| - 1) + DigitsValue(s[1..])
  }

  /**
   * The digit loop of `strconv.ParseUint` from position `i` with accumulator
   * `n`: a non-digit is a syntax error and an overflow a range error, whichever
   * comes first from the left.
   */
  function ScanDigits(s: string, i: nat, n: nat): (r: Parsed)
    requires i <= |s| && n <= MaxUint64
    ensures r.Value? ==> n <= r.n <= MaxUint64 && AllDigits(s[i..])
    decreases |s| - i
  {
    if i == |s| then Value(n)
    else if !IsDigit(s[i]) then Error(ErrSyntax)
    else if n >= Cutoff10 then Error(ErrRange)
    else if n * 10 + DigitValue(s[i]) > MaxUint64 then Error(ErrRange)
    else ScanDigits(s, i + 1, n * 10 + DigitValue(s[i]))
  }

  /** `strconv.ParseUint(s, 10, 64)`. */
  function ParseUint(s: string): (r: Parsed)
    ensures r.Value? ==> |s| > 0 && AllDigits(s) && 0 <= r.n <= MaxUint64
  {
    if |s| == 0 then Error(ErrSyntax) else ScanDigits(s, 0, 0)
  }

  /** `strconv.ParseInt(s, 10, 64)`: an optional sign, then `ParseUint`, then the int64 range check. */
  function ParseInt(s: string): (r: Parsed)
    ensures r.Value? ==> MinInt64 <= r.n <= MaxInt64
    ensures r.Value? ==> |s| > 0 && (r.n < 0 ==> s[0] == '-')
    ensures |s| == 0 ==> r == Error(ErrSyntax)
  {
    if |s| == 0 then Error(ErrSyntax)
    else
      var neg := s[0] == '-';
      var digits := if s[0] == '+' || s[0] == '-' then s[1..] else s;
      match ParseUint(digits)
      case Error(e) => Error(e)
      case Value(u) =>
        if !neg && u > MaxInt64 then Error(ErrRange)
        else if neg && u > -MinInt64 then Error(ErrRange)
        else Value(if neg then -u else u)
  }

  lemma {:induction false} DigitsValueCons(s: string, i: nat)
    requires i < |s| && AllDigits(s[i..])
    ensures AllDigits(s[i + 1..])
    ensures DigitsValue(s[i..]) == DigitValue(s[i]) * Pow10(|s| - i - 1) + DigitsValue(s[i + 1..])
  {
    assert s[i..][1..] == s[i + 1..];
    assert s[i..][0] == s[i];
  }

  lemma MulAtLeast(a: nat, p: nat)
    requires p >= 1
    ensures a * p >= a
  {
  }

  /** One step of Horner's rule: the accumulator absorbs the leading digit. */
  lemma HornerStep(n: nat, d: nat, k: nat, v: nat)
    requires k >= 1
    ensures n * Pow10(k) + (d * Pow10(k - 1) + v) == (n * 10 + d) * Pow10(k - 1) + v
    ensures (n * 10 + d) * Pow10(k - 1) + v >= n * 10 + d
  {
    var p := Pow10(k - 1);
    assert Pow10(k) == 10 * p;
    assert n * (10 * p) == (n * 10) * p;
    assert (n * 10 + d) * p == (n * 10) * p + d * p;
    MulAtLeast(n * 10 + d, p);
  }

  lemma {:induction false} ScanDigitsValue(s: string, i: nat, n: nat)
    requires i <= |s| && n <= MaxUint64
    ensures ScanDigits(s, i, n).Value? <==>
      AllDigits(s[i..]) && n * Pow10(|s| - i) + DigitsValue(s[i..]) <= MaxUint64
    ensures ScanDigits(s, i, n).Value? ==> ScanDigits(s, i, n).n == n * Pow10(|s| - i) + DigitsValue(s[i..])
    decreases |s| - i
  {
    if i == |s| {
      assert s[i..] == [];
    } else if !IsDigit(s[i]) {
      assert s[i..][0] == s[i];
    } else {
      var d := DigitValue(s[i]);
      var k := |s| - i;
      assert AllDigits(s[i..]) <==> AllDigits(s[i + 1..]) by {
        assert s[i..][1..] == s[i + 1..];
        assert s[i..][0] == s[i];
      }
      if AllDigits(s[i..]) {
        DigitsValueCons(s, i);
        HornerStep(n, d, k, DigitsValue(s[i + 1..]));
      }
      if n < Cutoff10 && n * 10 + d <= MaxUint64 {
        ScanDigitsValue(s, i + 1, n * 10 + d);
      }
    }
  }

  /** A run of decimal digits between 0 and 2^64 - 1 parses as an unsigned number, and only such a run. */
  lemma ParseUintValue(s: string)
    ensures ParseUint(s).Value? <==> |s| > 0 && AllDigits(s) && DigitsValue(s) <= MaxUint64
    ensures ParseUint(s).Value? ==> ParseUint(s).n == DigitsValue(s)
  {
    if |s| > 0 {
      ScanDigitsValue(s, 0, 0);
      assert s[0..] == s;
    }
  }

  /** A decimal literal with an optional sign. */
  predicate IsDecimal(s: string)
  {
    |s| > 0 &&
    if s[0] == '+' || s[0] == '-' then |s| > 1 && AllDigits(s[1..]) else AllDigits(s)
  }

  function DecimalValue(s: string): int
    requires IsDecimal(s)
  {
    if s[0] == '-' then -(DigitsValue(s[1..]) as int)
    else if s[0] == '+' then DigitsValue(s[1..])
    else DigitsValue(s)
  }

  /**
   * `ParseInt` succeeds exactly on the decimal literals whose value fits in
   * an int64, and then yields that value.
   */
  lemma ParseIntValue(s: string)
    ensures ParseInt(s).Value? <==> IsDecimal(s) && MinInt64 <= DecimalValue(s) <= MaxInt64
    ensures ParseInt(s).Value? ==> ParseInt(s).n == DecimalValue(s)
  {
    if |s| > 0 {
      var digits := if s[0] == '+' || s[0] == '-' then s[1..] else s;
      ParseUintValue(digits);
    }
  }

  /** `strconv.FormatUint(u, 10)`. */
  function FormatUint(u: nat): (s: string)
    ensures |s| > 0 && AllDigits(s)
  {
    if u < 10 then [('0' as int + u) as char]
    else FormatUint(u / 10) + [('0' as int + u % 10) as char]
  }

  /** `strconv.FormatInt(v, 10)`. */
  function FormatInt(v: int): (s: string)
    ensures |s| > 0
  {
    if v < 0 then "-" + FormatUint(-v) else FormatUint(v)
  }

  lemma {:induction false} DigitsValueSnoc(s: string, c: char)
    requires AllDigits(s) && IsDigit(c)
    ensures AllDigits(s + [c])
    ensures DigitsValue(s + [c]) == DigitsValue(s) * 10 + DigitValue(c)
  {
    if |s| > 0 {
      var t := s + [c];
      assert t[0] == s[0] && t[1..] == s[1..] + [c];
      DigitsValueSnoc(s[1..], c);
      var d, p, rest := DigitValue(s[0]), Pow10(|s| - 1), DigitsValue(s[1..]);
      assert DigitsValue(t) == d * (10 * p) + (rest * 10 + DigitValue(c));
      ShiftDigit(d, p, rest, DigitValue(c));
    }
  }

  /** Appending a digit multiplies the value of the leading digit by ten as well. */
  lemma ShiftDigit(d: int, p: int, rest: int, c: int)
    ensures d * (10 * p) + (rest * 10 + c) == (d * p + rest) * 10 + c
  {
  }

  lemma {:induction false} FormatUintValue(u: nat)
    ensures DigitsValue(FormatUint(u)) == u
  {
    if u >= 10 {
      FormatUintValue(u / 10);
      DigitsValueSnoc(FormatUint(u / 10), ('0' as int + u % 10) as char);
    }
  }

  /** Every int64 survives formatting and parsing back. */
  lemma ParseFormatRoundTrip(v: int)
    requires MinInt64 <= v <= MaxInt64
    ensures ParseInt(FormatInt(v)) == Value(v)
  {
    var s := FormatInt(v);
    if v < 0 {
      FormatUintValue(-v);
      assert s[1..] == FormatUint(-v);
    } else {
      FormatUintValue(v);
    }
    ParseIntValue(s);
  }

  // ---------------------------------------------------------------------
  // Freshness
  // ---------------------------------------------------------------------

  const Second: int := 1_000_000_000
  const Day: int := 24 * 60 * 60 * Second

  /** Seconds from 1 January of year 1 to the Unix epoch; `time.Time` counts its seconds from the former. */
  const UnixToInternal: int := 62135596800

  /**
   * `time.Unix(ts, 0)`: the internal seconds `ts + UnixToInternal` are an
   * int64, so a timestamp within `UnixToInternal` of the int64 maximum wraps
   * around to an instant some 584 billion years in the past.
   */
  function UnixInstant(ts: int): (t: Instant)
    requires MinInt64 <= ts <= MaxInt64
    ensures ts <= MaxInt64 - UnixToInternal ==> t == ts * Second
    ensures ts > MaxInt64 - UnixToInternal ==> t == (ts - 0x1_0000_0000_0000_0000) * Second && t < ZeroTime
  {
    var internal := ts + UnixToInternal;
    var wrapped := if internal > MaxInt64 then internal - 0x1_0000_0000_0000_0000 else internal;
    (wrapped - UnixToInternal) * Second
  }

  /**
   * `time.Since(t)` at the instant `now`: the difference in nanoseconds,
   * saturated to the int64 range of a `time.Duration` as `Time.Sub` does.
   * Saturation never changes a comparison with one day.
   */
  function Since(now: Instant, t: Instant): (d: int)
    ensures MinInt64 <= d <= MaxInt64
    ensures d > Day <==> now - t > Day
    ensures MinInt64 <= now - t <= MaxInt64 ==> d == now - t
  {
    if now - t > MaxInt64 then MaxInt64
    else if now - t < MinInt64 then MinInt64
    else now - t
  }

  // ---------------------------------------------------------------------
  // The verdict
  // ---------------------------------------------------------------------

  /** SHA-256 of a string's bytes, and HMAC-SHA-256 of a message's bytes under a key. */
  datatype Crypto = Crypto(sha256: string -> seq<byte>, hmacSha256: (seq<byte>, string) -> seq<byte>)

  datatype AuthError = InvalidHash | InvalidAuthDate(cause: NumError) | TooOld

  /** The `(bool, error)` pair the function returns. */
  datatype Verdict = Verdict(valid: bool, err: Option<AuthError>)

  /**
   * The hash the widget should have sent: the lowercase hex of the HMAC of the
   * check-string keyed with the digest of the bot token, not with the token.
   */
  function ExpectedHash(botToken: string, checkString: string, crypto: Crypto): (h: string)
    ensures HexDecode(h) == Some(crypto.hmacSha256(crypto.sha256(botToken), checkString))
    ensures forall k :: 0 <= k < |h| ==> IsLowerHex(h[k])
  {
    var mac := crypto.hmacSha256(crypto.sha256(botToken), checkString);
    HexRoundTrip(mac);
    HexEncode(mac)
  }

  /** `verifyTelegramAuth`: the hash first, then the `auth_date` format, then its age. */
  function VerifyTelegramAuth(botToken: string, data: AuthData, hash: string, now: Instant, crypto: Crypto,
                              order: seq<string>): (v: Verdict)
    requires multiset(order) == multiset(MapKeys)
    ensures v.valid <==> v.err.None?
    ensures hash != ExpectedHash(botToken, CheckString(data, order), crypto) ==> v == Verdict(false, Some(InvalidHash))
  {
    if ExpectedHash(botToken, CheckString(data, order), crypto) != hash then Verdict(false, Some(InvalidHash))
    else match ParseInt(data.authDate)
      case Error(e) => Verdict(false, Some(InvalidAuthDate(e)))
      case Value(ts) => if Since(now, UnixInstant(ts)) > Day then Verdict(false, Some(TooOld)) else Verdict(true, None)
  }

  /**
   * The full verdict, independent of map order: accepted exactly when the hash
   * matches the one computed over the canonical check-string, `auth_date` is a
   * decimal int64 and the login is at most one day old (exactly one day is
   * still fresh); otherwise the first failing check names the error.
   */
  lemma VerdictCharacterised(botToken: string, data: AuthData, hash: string, now: Instant, crypto: Crypto,
                             order: seq<string>)
    requires multiset(order) == multiset(MapKeys)
    ensures var v := VerifyTelegramAuth(botToken, data, hash, now, crypto, order);
      var expected := ExpectedHash(botToken, CanonicalCheckString(data), crypto);
      && (v.valid <==>
            hash == expected && IsDecimal(data.authDate)
            && MinInt64 <= DecimalValue(data.authDate) <= MaxInt64
            && now - UnixInstant(DecimalValue(data.authDate)) <= Day)
      && (hash != expected ==> v.err == Some(InvalidHash))
      && (hash == expected && ParseInt(data.authDate).Error? ==>
            v.err == Some(InvalidAuthDate(ParseInt(data.authDate).err)))
      && (hash == expected && ParseInt(data.authDate).Value? ==>
            (v.err == Some(TooOld) <==> now - UnixInstant(ParseInt(data.authDate).n) > Day))
  {
    ParseIntValue(data.authDate);
  }

  /** The comparison is case-sensitive: a hash with an upper-case hex letter is always refused. */
  lemma UpperCaseHashRefused(botToken: string, data: AuthData, hash: string, now: Instant, crypto: Crypto,
                             order: seq<string>, k: int)
    requires multiset(order) == multiset(MapKeys)
    requires 0 <= k < |hash| && 'A' <= hash[k] <= 'F'
    ensures VerifyTelegramAuth(botToken, data, hash, now, crypto, order) == Verdict(false, Some(InvalidHash))
  {
  }

  /**
   * An `auth_date` so far in the future that `time.Unix` wraps is refused as
   * too old, even with a matching hash, at any instant from year 1 on.
   */
  lemma FarFutureAuthDateTooOld(botToken: string, data: AuthData, now: Instant, crypto: Crypto, order: seq<string>)
    requires multiset(order) == multiset(MapKeys)
    requires ParseInt(data.authDate).Value? && ParseInt(data.authDate).n > MaxInt64 - UnixToInternal
    requires now >= ZeroTime
    ensures VerifyTelegramAuth(botToken, data, ExpectedHash(botToken, CheckString(data, order), crypto), now, crypto, order)
         == Verdict(false, Some(TooOld))
  {
  }

  /** The order in which Go's map yields its keys never changes the verdict. */
  lemma VerdictIndependentOfOrder(botToken: string, data: AuthData, hash: string, now: Instant, crypto: Crypto,
                                  order1: seq<string>, order2: seq<string>)
    requires multiset(order1) == multiset(MapKeys) && multiset(order2) == multiset(MapKeys)
    ensures VerifyTelegramAuth(botToken, data, hash, now, crypto, order1)
         == VerifyTelegramAuth(botToken, data, hash, now, crypto, order2)
  {
  }
}
