// Hand-written matchers for the suffix patterns of GGUF file names. Each
// regular expression is anchored at the end (`$`) and searched for leftmost
// first, so each matcher is a whole-string test (`Match…`) plus a scan for the
// first position from which the rest of the name passes it (`First…`).

module NamePattern {
  import opened Wrappers
  import opened Decimal

  const EXT: string := ".gguf"

  /** `str::strip_suffix`. */
  function StripSuffix(s: string, suffix: string): (r: Option<string>)
    ensures r.Some? <==> |suffix| <= |s| && s[|s| - |suffix|..] == suffix
    ensures r.Some? ==> r.value + suffix == s
  {
    if |suffix| <= |s| && s[|s| - |suffix|..] == suffix then Some(s[..|s| - |suffix|]) else None
  }

  lemma StripAppended(x: string, suffix: string)
    ensures StripSuffix(x + suffix, suffix) == Some(x)
  {
    assert (x + suffix)[|x|..] == suffix;
  }

  /** The position of the last c in s. */
  function LastIndex(s: string, c: char): (r: Option<nat>)
    ensures r.Some? ==> r.value < |s| && s[r.value] == c && forall k :: r.value < k < |s| ==> s[k] != c
    ensures r.None? ==> forall k :: 0 <= k < |s| ==> s[k] != c
  {
    if s == [] then None
    else if s[|s| - 1] == c then Some(|s| - 1)
    else LastIndex(s[..|s| - 1], c)
  }

  /** `str::rsplit_once(c)`: the text before and after the last c. */
  function RSplitOnce(s: string, c: char): (r: Option<(string, string)>)
    ensures r.None? <==> c !in s
    ensures r.Some? ==> s == r.value.0 + [c] + r.value.1 && c !in r.value.1
    ensures r.Some? ==> |r.value.0| < |s| && r.value.0 == s[..|r.value.0|]
  {
    match LastIndex(s, c)
    case None => None
    case Some(i) =>
      assert s == s[..i] + [c] + s[i + 1..];
      Some((s[..i], s[i + 1..]))
  }

  /** Splitting at the last `-` of a text whose final piece has none. */
  lemma RSplitLast(head: string, word: string)
    requires '-' !in word
    ensures RSplitOnce(head + "-" + word, '-') == Some((head, word))
  {
    var s := head + "-" + word;
    assert s[|head|] == '-';
    assert forall k :: |head| < k < |s| ==> s[k] == word[k - |head| - 1];
    assert s[..|head|] == head && s[|head| + 1..] == word;
  }

  /** The end of the run of digits that starts at i. */
  function DigitRun(s: string, i: nat): (j: nat)
    requires i <= |s|
    ensures i <= j <= |s| && AllDigits(s[i..j]) && (j < |s| ==> !IsDigit(s[j]))
    decreases |s| - i
  {
    if i < |s| && IsDigit(s[i]) then
      var j := DigitRun(s, i + 1);
      assert s[i..j] == [s[i]] + s[i + 1..j];
      j
    else i
  }

  /** A maximal run of digits is the one DigitRun finds. */
  lemma DigitRunAt(s: string, i: nat, j: nat)
    requires i <= j <= |s| && AllDigits(s[i..j]) && (j < |s| ==> !IsDigit(s[j]))
    ensures DigitRun(s, i) == j
  {
    var r := DigitRun(s, i);
    assert forall k :: i <= k < j ==> IsDigit(s[k]) by {
      forall k | i <= k < j ensures IsDigit(s[k]) { assert s[k] == s[i..j][k - i]; }
    }
    assert forall k :: i <= k < r ==> IsDigit(s[k]) by {
      forall k | i <= k < r ensures IsDigit(s[k]) { assert s[k] == s[i..r][k - i]; }
    }
  }

  /** `\w` over ASCII. */
  predicate IsWord(c: char)
  {
    IsDigit(c) || 'a' <= c <= 'z' || 'A' <= c <= 'Z' || c == '_'
  }

  predicate AllWord(s: string)
  {
    forall i :: 0 <= i < |s| ==> IsWord(s[i])
  }

  /** `[QTBMK]`. */
  predicate IsUnit(c: char)
  {
    c == 'Q' || c == 'T' || c == 'B' || c == 'M' || c == 'K'
  }

  // ---------------------------------------------------------------- shard

  /** `-(\d{5})-of-(\d{5})`, the whole of t. */
  predicate IsShardText(t: string)
  {
    |t| == 15 && t[0] == '-' && AllDigits(t[1..6]) && t[6..10] == "-of-" && AllDigits(t[10..])
  }

  /** SHARD: the name without its shard suffix and the two numbers, when it ends with one
      (the pattern has a fixed length, so only the last 15 characters can match). */
  function ShardCapture(name: string): (r: Option<(string, nat, nat)>)
    ensures r.Some? <==> |name| >= 15 && IsShardText(name[|name| - 15..])
    ensures r.Some? ==> r.value.0 == name[..|name| - 15] && r.value.1 < 100000 && r.value.2 < 100000
  {
    if |name| >= 15 && IsShardText(name[|name| - 15..]) then
      var t := name[|name| - 15..];
      ValueBound(t[1..6]);
      ValueBound(t[10..]);
      assert |t[10..]| == 5 && Pow10(5) == 100000;
      Some((name[..|name| - 15], Value(t[1..6]), Value(t[10..])))
    else None
  }

  /** `-{index:05}-of-{count:05}`. */
  function ShardText(index: nat, count: nat): string
  {
    "-" + Pad(index, 5) + "-of-" + Pad(count, 5)
  }

  /** A shard suffix printed with five-digit numbers is recognised and read back. */
  lemma ShardTextCaptured(head: string, index: nat, count: nat)
    requires index < 100000 && count < 100000
    ensures ShardCapture(head + ShardText(index, count)) == Some((head, index, count))
  {
    PadLength(index, 5);
    PadLength(count, 5);
    ValueOfPad(index, 5);
    ValueOfPad(count, 5);
    var name := head + ShardText(index, count);
    var t := name[|name| - 15..];
    assert t == ShardText(index, count);
    assert t[1..6] == Pad(index, 5) && t[10..] == Pad(count, 5);
    assert name[..|name| - 15] == head;
  }

  /** A text that ends in a letter has no shard suffix. */
  lemma NoShardAfterLetter(name: string)
    requires |name| > 0 && !IsDigit(name[|name| - 1])
    ensures ShardCapture(name).None?
  {
    if |name| >= 15 {
      var t := name[|name| - 15..];
      assert t[10..][4] == name[|name| - 1];
    }
  }

  /** No shard suffix ends a text whose last `-` is followed by a word without `-` that is
      not five digits. */
  lemma NoShardAfterWord(head: string, word: string)
    requires '-' !in word && !(|word| == 5 && AllDigits(word))
    ensures ShardCapture(head + "-" + word).None?
  {
    var name := head + "-" + word;
    var n := |name|;
    if n >= 15 {
      var t := name[n - 15..];
      assert t[9] == name[n - 6] && t[10..] == name[n - 5..];
      assert |word| >= 6 ==> name[n - 6] == word[|word| - 6];
      assert |word| == 5 ==> name[n - 5..] == word;
      assert |word| < 5 ==> name[n - 1 - |word|] == '-' && t[14 - |word|] == name[n - 1 - |word|];
    }
  }

  // ---------------------------------------------------------------- version

  /** `-v(\d+)\.(\d+)`, the whole of s: the digits of the two numbers. */
  function MatchVersion(s: string): (r: Option<(string, string)>)
    ensures r.Some? ==> AllDigits(r.value.0) && AllDigits(r.value.1) && |r.value.0| >= 1 && |r.value.1| >= 1
    ensures r.Some? ==> s == "-v" + r.value.0 + "." + r.value.1
  {
    if |s| < 2 || s[0] != '-' || s[1] != 'v' then None
    else
      var j := DigitRun(s, 2);
      if j == 2 || j == |s| || s[j] != '.' then None
      else
        var k := DigitRun(s, j + 1);
        if k == j + 1 || k != |s| then None
        else
          assert s[j + 1..k] == s[j + 1..];
          assert s == "-v" + s[2..j] + "." + s[j + 1..];
          Some((s[2..j], s[j + 1..]))
  }

  /** A version match has no `-` past its first character. */
  lemma VersionHasOneDash(s: string, k: nat)
    requires MatchVersion(s).Some? && 1 <= k < |s|
    ensures s[k] != '-'
  {
    var m := MatchVersion(s).value;
    if k >= 2 + |m.0| + 1 {
      assert s[k] == m.1[k - 3 - |m.0|];
    } else if k >= 2 && k < 2 + |m.0| {
      assert s[k] == m.0[k - 2];
    }
  }

  /** The leftmost position from p on at which the rest of name matches. */
  function FirstVersion(name: string, p: nat): (r: Option<(nat, string, string)>)
    requires p <= |name|
    ensures r.Some? ==> p <= r.value.0 <= |name| && MatchVersion(name[r.value.0..]) == Some((r.value.1, r.value.2))
    decreases |name| - p
  {
    var here := MatchVersion(name[p..]);
    if here.Some? then var m := here.value; Some((p, m.0, m.1))
    else if p == |name| then None else FirstVersion(name, p + 1)
  }

  /** The scan stops at the first match: a match at q after none from p on is what it reports. */
  lemma {:induction false} FirstVersionAt(name: string, p: nat, q: nat)
    requires p <= q <= |name| && MatchVersion(name[q..]).Some?
    requires forall k :: p <= k < q ==> MatchVersion(name[k..]).None?
    ensures FirstVersion(name, p) == Some((q, MatchVersion(name[q..]).value.0, MatchVersion(name[q..]).value.1))
    decreases q - p
  {
    if p < q {
      FirstVersionAt(name, p + 1, q);
    }
  }

  /** With no match from p on, the scan reports none. */
  lemma {:induction false} FirstVersionNone(name: string, p: nat)
    requires p <= |name|
    requires forall q :: p <= q <= |name| ==> MatchVersion(name[q..]).None?
    ensures FirstVersion(name, p).None?
    decreases |name| - p
  {
    if p < |name| {
      FirstVersionNone(name, p + 1);
    }
  }

  /** VERSION: the name before its version suffix and the digits of the two numbers. */
  function VersionCapture(name: string): (r: Option<(string, string, string)>)
    ensures r.Some? ==> |r.value.0| <= |name| && r.value.0 == name[..|r.value.0|]
    ensures r.Some? ==> MatchVersion(name[|r.value.0|..]) == Some((r.value.1, r.value.2))
  {
    match FirstVersion(name, 0)
    case None => None
    case Some(m) => Some((name[..m.0], m.1, m.2))
  }

  /** `-v` and two digit strings make a version suffix with those digits. */
  lemma MatchVersionText(major: string, minor: string)
    requires AllDigits(major) && AllDigits(minor) && |major| >= 1 && |minor| >= 1
    ensures MatchVersion("-v" + major + "." + minor) == Some((major, minor))
  {
    var tail := "-v" + major + "." + minor;
    assert tail[2..2 + |major|] == major && tail[2 + |major|] == '.';
    DigitRunAt(tail, 2, 2 + |major|);
    assert tail[3 + |major|..] == minor;
    DigitRunAt(tail, 3 + |major|, |tail|);
  }

  /** No version suffix starts before a `-` that is not its own first character. */
  lemma NoVersionBeforeDash(name: string, q: nat, d: nat)
    requires q < d < |name| && name[d] == '-'
    ensures MatchVersion(name[q..]).None?
  {
    if MatchVersion(name[q..]).Some? {
      assert name[q..][d - q] == '-';
      VersionHasOneDash(name[q..], d - q);
    }
  }

  /** A version match has a `.` followed by digits only. */
  lemma VersionDot(s: string) returns (d: nat)
    requires MatchVersion(s).Some?
    ensures d < |s| && s[d] == '.' && forall k :: d < k < |s| ==> IsDigit(s[k])
  {
    var m := MatchVersion(s).value;
    d := 2 + |m.0|;
    assert forall k :: d < k < |s| ==> s[k] == m.1[k - d - 1];
  }

  /** No version suffix ends a text in which a non-digit follows every `.`. */
  lemma NoVersionAfter(name: string, k: nat)
    requires k < |name| && !IsDigit(name[k]) && forall j :: k <= j < |name| ==> name[j] != '.'
    ensures VersionCapture(name).None?
  {
    forall q | 0 <= q <= |name|
      ensures MatchVersion(name[q..]).None?
    {
      if MatchVersion(name[q..]).Some? {
        var d := VersionDot(name[q..]);
      }
    }
    FirstVersionNone(name, 0);
  }

  /** A text without `-` has no version suffix. */
  lemma NoVersionWithoutDash(name: string)
    requires '-' !in name
    ensures VersionCapture(name).None?
  {
    forall q | 0 <= q <= |name|
      ensures MatchVersion(name[q..]).None?
    {
      if q < |name| {
        assert name[q..][0] == name[q];
      }
    }
    FirstVersionNone(name, 0);
  }

  /** A version suffix after a head is found as the head's version suffix. */
  lemma VersionCaptured(head: string, tail: string)
    requires MatchVersion(tail).Some?
    ensures VersionCapture(head + tail) == Some((head, MatchVersion(tail).value.0, MatchVersion(tail).value.1))
  {
    var name := head + tail;
    assert name[|head|..] == tail;
    assert name[|head|] == '-';
    forall q | 0 <= q < |head|
      ensures MatchVersion(name[q..]).None?
    {
      NoVersionBeforeDash(name, q, |head|);
    }
    FirstVersionAt(name, 0, |head|);
    assert name[..|head|] == head;
  }

  // ---------------------------------------------------------------- size label

  /** The captures of NAME: the digits of the multiplier, the number and the fraction, the
      unit letter and the fine-tune, each without its `x`, `.` or `-`; an optional group
      that did not take part is empty (none of them can match an empty text). */
  datatype SizeParts = SizeParts(e: string, a: string, b: string, l: char, fineTune: string)

  /** The length of the run of digits that starts s. */
  function DigitLen(s: string): (n: nat)
    ensures n <= |s| && AllDigits(s[..n]) && (n < |s| ==> !IsDigit(s[n]))
  {
    if s != [] && IsDigit(s[0]) then
      var n := 1 + DigitLen(s[1..]);
      assert s[..n] == [s[0]] + s[1..][..n - 1];
      n
    else 0
  }

  /** Digits followed by something other than a digit: the run is exactly the digits. */
  lemma DigitLenOf(d: string, rest: string)
    requires AllDigits(d) && (rest != [] ==> !IsDigit(rest[0]))
    ensures DigitLen(d + rest) == |d| && (d + rest)[..|d|] == d && (d + rest)[|d|..] == rest
  {
    var s := d + rest;
    assert s[..|d|] == d && s[|d|..] == rest;
  }

  /** `-(\d+x)?(\d+)(\.\d+)?([QTBMK])(-\w+)?`, the whole of s. Each part can be matched in
      one way only (a digit is neither `x`, `.` nor a unit letter), so every run of digits
      is maximal: first the optional `\d+x` multiplier. */
  function MatchSize(s: string): (r: Option<SizeParts>)
    ensures r.Some? ==> |s| >= 3 && s[0] == '-'
    ensures r.Some? ==> AllDigits(r.value.e) && AllDigits(r.value.a) && AllDigits(r.value.b)
  {
    if |s| < 3 || s[0] != '-' then None
    else
      var t := s[1..];
      var j := DigitLen(t);
      if j == 0 then None
      else if j < |t| && t[j] == 'x' then SizeNumber(t[j + 1..], t[..j])
      else SizeNumber(t, "")
  }

  /** Then the `\d+` number, ... */
  function SizeNumber(t: string, e: string): (r: Option<SizeParts>)
    ensures r.Some? ==> r.value.e == e && AllDigits(r.value.a) && AllDigits(r.value.b)
  {
    var m := DigitLen(t);
    if m == 0 then None else SizeFraction(t[m..], e, t[..m])
  }

  /** ... then the optional `\.\d+` fraction, ... */
  function SizeFraction(u: string, e: string, a: string): (r: Option<SizeParts>)
    ensures r.Some? ==> r.value.e == e && r.value.a == a && AllDigits(r.value.b)
  {
    if u != [] && u[0] == '.' then
      var n := DigitLen(u[1..]);
      if n == 0 then None else SizeUnit(u[1 + n..], e, a, u[1..][..n])
    else SizeUnit(u, e, a, "")
  }

  /** ... and last the unit letter and the optional `-\w+` fine-tune through to the end. */
  function SizeUnit(u: string, e: string, a: string, b: string): (r: Option<SizeParts>)
    ensures r.Some? ==> r.value.e == e && r.value.a == a && r.value.b == b
  {
    if u == [] || !IsUnit(u[0]) then None
    else if |u| == 1 then Some(SizeParts(e, a, b, u[0], ""))
    else if u[1] == '-' && |u| > 2 && AllWord(u[2..]) then Some(SizeParts(e, a, b, u[0], u[2..]))
    else None
  }

  /** The leftmost position from p on at which the rest of name matches. */
  function FirstSize(name: string, p: nat): (r: Option<(nat, SizeParts)>)
    requires p <= |name|
    ensures r.Some? ==> p <= r.value.0 <= |name| && MatchSize(name[r.value.0..]) == Some(r.value.1)
    decreases |name| - p
  {
    var here := MatchSize(name[p..]);
    if here.Some? then var m := here.value; Some((p, m))
    else if p == |name| then None else FirstSize(name, p + 1)
  }

  /** The scan stops at the first match: there is none before the position it reports,
      and none at all when it reports nothing. */
  lemma {:induction false} FirstSizeLeftmost(name: string, p: nat, q: nat)
    requires p <= q <= |name|
    ensures FirstSize(name, p).Some? && q < FirstSize(name, p).value.0 ==> MatchSize(name[q..]).None?
    ensures FirstSize(name, p).None? ==> MatchSize(name[q..]).None?
    decreases q - p
  {
    if p < q && MatchSize(name[p..]).None? {
      FirstSizeLeftmost(name, p + 1, q);
    }
  }

  /** A match at q after none from p on is what the scan reports. */
  lemma {:induction false} FirstSizeAt(name: string, p: nat, q: nat)
    requires p <= q <= |name| && MatchSize(name[q..]).Some?
    requires forall k :: p <= k < q ==> MatchSize(name[k..]).None?
    ensures FirstSize(name, p) == Some((q, MatchSize(name[q..]).value))
    decreases q - p
  {
    if p < q {
      FirstSizeAt(name, p + 1, q);
    }
  }

  /** With no match from p on, the scan reports none. */
  lemma {:induction false} FirstSizeNone(name: string, p: nat)
    requires p <= |name|
    requires forall q :: p <= q <= |name| ==> MatchSize(name[q..]).None?
    ensures FirstSize(name, p).None?
    decreases |name| - p
  {
    if p < |name| {
      FirstSizeNone(name, p + 1);
    }
  }

  /** A text without `-` has no size label. */
  lemma NoSizeWithoutDash(name: string)
    requires '-' !in name
    ensures SizeCapture(name).None?
  {
    forall q | 0 <= q <= |name|
      ensures MatchSize(name[q..]).None?
    {
      if q < |name| {
        assert name[q..][0] == name[q];
      }
    }
    FirstSizeNone(name, 0);
  }

  /** NAME: the name before the leftmost size-label match, and the captures. */
  function SizeCapture(name: string): (r: Option<(string, SizeParts)>)
    ensures r.Some? ==> |r.value.0| <= |name| && r.value.0 == name[..|r.value.0|]
    ensures r.Some? ==> MatchSize(name[|r.value.0|..]) == Some(r.value.1)
  {
    match FirstSize(name, 0)
    case None => None
    case Some(m) => Some((name[..m.0], m.1))
  }

  /** A size label after a head without `-` is found as the head's size label. */
  lemma SizeCaptured(head: string, tail: string)
    requires MatchSize(tail).Some? && '-' !in head
    ensures SizeCapture(head + tail) == Some((head, MatchSize(tail).value))
  {
    var name := head + tail;
    assert name[|head|..] == tail;
    forall q | 0 <= q < |head|
      ensures MatchSize(name[q..]).None?
    {
      assert name[q..][0] == head[q];
    }
    FirstSizeAt(name, 0, |head|);
    assert name[..|head|] == head;
  }

  /** How the optional parts of a size label are written: the `\d+x` text of a multiplier's
      digits, the `.\d+` text of a fraction's digits and the `-\w+` text of a fine-tune, or
      nothing for an empty one. */
  function MultiplierOf(digits: string): string
  {
    if digits == "" then "" else digits + "x"
  }

  function FractionOf(digits: string): string
  {
    if digits == "" then "" else "." + digits
  }

  function FineTuneText(fineTune: string): string
  {
    if fineTune == "" then "" else "-" + fineTune
  }

  /** The unit letter and the fine-tune read back. */
  lemma SizeUnitText(e: string, a: string, b: string, l: char, fineTune: string)
    requires IsUnit(l) && AllWord(fineTune)
    ensures SizeUnit([l] + FineTuneText(fineTune), e, a, b) == Some(SizeParts(e, a, b, l, fineTune))
  {
    var u := [l] + FineTuneText(fineTune);
    if fineTune != "" {
      assert u[2..] == fineTune;
    }
  }

  /** How `.`, digits and what follows them split up. */
  lemma FractionSplit(db: string, unit: string)
    requires AllDigits(db) && db != "" && (unit != [] ==> !IsDigit(unit[0]))
    ensures var x := FractionOf(db) + unit;
      x != [] && x[0] == '.' && DigitLen(x[1..]) == |db| && x[1..][..|db|] == db && x[1 + |db|..] == unit
  {
    var x := FractionOf(db) + unit;
    assert x == ['.'] + (db + unit);
    assert x[1..] == db + unit;
    DigitLenOf(db, unit);
    assert x[1 + |db|..] == unit;
  }

  /** The fraction, the unit letter and the fine-tune read back from their digits. */
  lemma SizeFractionDigits(e: string, a: string, db: string, l: char, fineTune: string)
    requires AllDigits(db) && IsUnit(l) && AllWord(fineTune)
    ensures SizeFraction(FractionOf(db) + ([l] + FineTuneText(fineTune)), e, a) == Some(SizeParts(e, a, db, l, fineTune))
  {
    var unit := [l] + FineTuneText(fineTune);
    SizeUnitText(e, a, db, l, fineTune);
    if db != "" {
      FractionSplit(db, unit);
    } else {
      assert FractionOf(db) + unit == unit;
    }
  }

  /** The number, the fraction, the unit letter and the fine-tune read back from their digits. */
  lemma SizeNumberDigits(e: string, da: string, db: string, l: char, fineTune: string)
    requires AllDigits(da) && |da| >= 1 && AllDigits(db) && IsUnit(l) && AllWord(fineTune)
    ensures SizeNumber(da + (FractionOf(db) + ([l] + FineTuneText(fineTune))), e) == Some(SizeParts(e, da, db, l, fineTune))
  {
    DigitLenOf(da, FractionOf(db) + ([l] + FineTuneText(fineTune)));
    SizeFractionDigits(e, da, db, l, fineTune);
  }

  /** A size label printed from its digits, with its fine-tune, is matched and read back whole. */
  lemma MatchSizeDigits(de: string, da: string, db: string, l: char, fineTune: string)
    requires AllDigits(de) && AllDigits(da) && |da| >= 1 && AllDigits(db) && IsUnit(l) && AllWord(fineTune)
    ensures MatchSize("-" + (MultiplierOf(de) + (da + (FractionOf(db) + ([l] + FineTuneText(fineTune))))))
         == Some(SizeParts(de, da, db, l, fineTune))
  {
    var rest := da + (FractionOf(db) + ([l] + FineTuneText(fineTune)));
    var t := MultiplierOf(de) + rest;
    var s := "-" + t;
    assert s[1..] == t;
    if de == "" {
      DigitLenOf(da, FractionOf(db) + ([l] + FineTuneText(fineTune)));
      SizeNumberDigits("", da, db, l, fineTune);
    } else {
      assert t == de + (['x'] + rest);
      DigitLenOf(de, ['x'] + rest);
      assert t[|de| + 1..] == rest;
      SizeNumberDigits(de, da, db, l, fineTune);
    }
  }
}
