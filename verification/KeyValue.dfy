/** `key=value;key=value` payloads: `kv_get` and `kv_get_u64` of src/common/protocol.c. */
module KeyValue {
  import opened Prelude
  import opened Decimal

  /** The first index at or after `i` that holds `c`, or the length. */
  function Find(s: string, c: char, i: nat): (k: nat)
    requires i <= |s|
    ensures i <= k <= |s|
    ensures c !in s[i..k]
    ensures k < |s| ==> s[k] == c
    decreases |s| - i
  {
    if i == |s| || s[i] == c then i
    else
      var k := Find(s, c, i + 1);
      assert s[i..k] == [s[i]] + s[i + 1..k];
      k
  }

  lemma {:induction false} FindIs(s: string, c: char, i: nat, k: nat)
    requires i <= k <= |s| && c !in s[i..k] && (k < |s| ==> s[k] == c)
    ensures Find(s, c, i) == k
    decreases |s| - i
  {
    if i < k {
      assert s[i] == s[i..k][0];
      assert s[i + 1..k] == s[i..k][1..];
      FindIs(s, c, i + 1, k);
    }
  }

  /** The part before the first semicolon, split at its first equals sign, matches the key. */
  predicate Matches(part: string, key: string) {
    var eq := Find(part, '=', 0);
    eq < |part| && part[..eq] == key
  }

  /** The value of the first matching part, if it fits `cap` bytes with its terminator. */
  function Get(payload: string, key: string, cap: nat): Option<string> {
    if |payload| == 0 then None
    else
      var end := Find(payload, ';', 0);
      var part := payload[..end];
      if Matches(part, key) then
        var value := part[|key| + 1..];
        if |value| >= cap then None else Some(value)
      else if end == |payload| then None
      else Get(payload[end + 1..], key, cap)
  }

  /** `kv_get`: a pointer that moves from part to part. */
  method KvGet(payload: string, key: string, cap: nat) returns (value: Option<string>)
    ensures value == Get(payload, key, cap)
  {
    hide Matches, Get;
    GetNothing(key, cap);
    assert payload[0..] == payload && payload[|payload|..] == "";
    var p := 0;
    while p < |payload|
      invariant p <= |payload|
      invariant Get(payload, key, cap) == Get(payload[p..], key, cap)
    {
      var end := Find(payload, ';', p);
      var part := payload[p..end];
      GetFrom(payload, key, cap, p);
      if MatchesAt(part, key) {
        var rest := part[|key| + 1..];
        return if |rest| >= cap then None else Some(rest);
      }
      if end == |payload| {
        return None;
      }
      p := end + 1;
    }
    value := None;
  }

  lemma GetNothing(key: string, cap: nat)
    ensures Get("", key, cap) == None
  {
  }

  /** The value of a part with the key, if it fits. */
  function ValueIn(part: string, key: string, cap: nat): Option<string> {
    if |part| <= |key| || |part| - |key| - 1 >= cap then None else Some(part[|key| + 1..])
  }

  /** One step of the scan, at a position in the payload. */
  lemma GetFrom(payload: string, key: string, cap: nat, p: nat)
    requires p < |payload|
    ensures var end := Find(payload, ';', p);
      var part := payload[p..end];
      Get(payload[p..], key, cap) ==
        if Matches(part, key) then ValueIn(part, key, cap)
        else if end == |payload| then None
        else Get(payload[end + 1..], key, cap)
  {
    hide Get, Find, Matches, ValueIn;
    SamePart(payload, p);
    var end := Find(payload, ';', p);
    GetCut(payload[p..], key, cap, end - p, payload[p..end], if end < |payload| then payload[end + 1..] else "");
  }

  /** The same step, with the part and the rest given. */
  lemma GetCut(payload: string, key: string, cap: nat, end: nat, part: string, rest: string)
    requires |payload| > 0 && end == Find(payload, ';', 0) && payload[..end] == part
    requires end < |payload| ==> payload[end + 1..] == rest
    ensures Get(payload, key, cap) ==
      if Matches(part, key) then ValueIn(part, key, cap)
      else if end == |payload| then None
      else Get(rest, key, cap)
  {
    hide Get, Find, Matches, ValueIn;
    GetStep(payload, key, cap);
  }

  lemma GetStep(payload: string, key: string, cap: nat)
    requires |payload| > 0
    ensures var end := Find(payload, ';', 0);
      var part := payload[..end];
      Get(payload, key, cap) ==
        if Matches(part, key) then ValueIn(part, key, cap)
        else if end == |payload| then None
        else Get(payload[end + 1..], key, cap)
  {
  }

  lemma SamePart(payload: string, p: nat)
    requires p < |payload|
    ensures var end := Find(payload, ';', p);
      && Find(payload[p..], ';', 0) == end - p
      && payload[p..][..end - p] == payload[p..end]
      && (end < |payload| ==> payload[p..][end - p + 1..] == payload[end + 1..])
  {
    var end := Find(payload, ';', p);
    assert payload[p..][0..end - p] == payload[p..end];
    FindIs(payload[p..], ';', 0, end - p);
  }

  /** The comparison of the code: the position of the equals sign, then the characters before it. */
  predicate MatchesAt(part: string, key: string)
    ensures MatchesAt(part, key) == Matches(part, key)
    ensures Matches(part, key) ==> |key| < |part|
  {
    var eq := Find(part, '=', 0);
    eq < |part| && eq == |key| && part[..|key|] == key
  }

  // ---- Printing and reading back ----

  /** A field: its key has no separator, its value no semicolon. */
  ghost predicate IsField(f: (string, string)) {
    ';' !in f.0 && '=' !in f.0 && ';' !in f.1
  }

  function Text(f: (string, string)): string {
    f.0 + "=" + f.1
  }

  function Join(fields: seq<(string, string)>): string {
    if |fields| == 0 then ""
    else if |fields| == 1 then Text(fields[0])
    else Text(fields[0]) + ";" + Join(fields[1..])
  }

  lemma FieldMatches(f: (string, string), key: string)
    requires IsField(f)
    ensures Matches(Text(f), key) <==> f.0 == key
    ensures ';' !in Text(f) && |Text(f)| == |f.0| + 1 + |f.1| && Text(f)[|f.0| + 1..] == f.1
  {
    var t := Text(f);
    assert t[..|f.0|] == f.0 == t[0..|f.0|];
    FindIs(t, '=', 0, |f.0|);
  }

  lemma HeadPart(f: (string, string), rest: string, last: bool)
    requires IsField(f) && (last ==> rest == "")
    ensures var s := if last then Text(f) else Text(f) + ";" + rest;
      var end := Find(s, ';', 0);
      && s[..end] == Text(f) && (last ==> end == |s|) && (!last ==> end < |s| && s[end + 1..] == rest)
  {
    FieldMatches(f, f.0);
    var s := if last then Text(f) else Text(f) + ";" + rest;
    assert s[..|Text(f)|] == Text(f) == s[0..|Text(f)|];
    FindIs(s, ';', 0, |Text(f)|);
  }

  lemma GetOfFirst(fields: seq<(string, string)>, key: string, cap: nat)
    requires |fields| > 0 && IsField(fields[0])
    ensures Get(Join(fields), key, cap) ==
      if fields[0].0 == key then (if |fields[0].1| >= cap then None else Some(fields[0].1))
      else if |fields| == 1 then None
      else Get(Join(fields[1..]), key, cap)
  {
    hide Matches, IsField, Get, Find, Text;
    var f := fields[0];
    FieldMatches(f, key);
    HeadPart(f, if |fields| == 1 then "" else Join(fields[1..]), |fields| == 1);
    GetStep(Join(fields), key, cap);
  }

  /**
   Reading a key of a printed list gives the value printed for it, when no earlier field has the key; a value that
   does not fit the buffer is not read at all.
   */
  lemma {:induction false} GetOfJoin(fields: seq<(string, string)>, j: nat, cap: nat)
    requires forall i | 0 <= i < |fields| :: IsField(fields[i])
    requires j < |fields|
    requires forall i | 0 <= i < j :: fields[i].0 != fields[j].0
    ensures Get(Join(fields), fields[j].0, cap) == if |fields[j].1| >= cap then None else Some(fields[j].1)
  {
    hide IsField, Get, Join;
    GetOfFirst(fields, fields[j].0, cap);
    if j > 0 {
      GetOfJoin(fields[1..], j - 1, cap);
    }
  }

  /** A key that no field has is not found. */
  lemma {:induction false} GetAbsent(fields: seq<(string, string)>, key: string, cap: nat)
    requires forall i | 0 <= i < |fields| :: IsField(fields[i]) && fields[i].0 != key
    ensures Get(Join(fields), key, cap) == None
  {
    if |fields| == 0 {
      GetNothing(key, cap);
    } else {
      hide IsField, Get, Join;
      GetOfFirst(fields, key, cap);
      if |fields| > 1 {
        GetAbsent(fields[1..], key, cap);
      }
    }
  }

  // ---- Numbers ----

  /** `isspace` in the C locale. */
  predicate IsSpace(c: char) { c == ' ' || '\t' <= c <= '\r' }

  function SkipSpaces(s: string, i: nat): (k: nat)
    requires i <= |s|
    ensures i <= k <= |s|
    decreases |s| - i
  {
    if i < |s| && IsSpace(s[i]) then SkipSpaces(s, i + 1) else i
  }

  const TWO_TO_THE_64 := 0x1_0000_0000_0000_0000

  /** The result of `strtoull` in base 10: saturated, and wrapped when there is a minus sign. */
  function ToU64(digits: string, minus: bool): (v: nat)
    requires AllDigits(digits)
    ensures v < TWO_TO_THE_64
  {
    var n := Value(digits);
    if n >= TWO_TO_THE_64 then TWO_TO_THE_64 - 1
    else if minus && n > 0 then TWO_TO_THE_64 - n
    else n
  }

  /** `strtoull`, accepted only when it stops at the end of the text. The empty text reads as zero. */
  function ParseU64(s: string): Option<nat> {
    if |s| == 0 then Some(0)
    else
      var i := SkipSpaces(s, 0);
      var signed := i < |s| && (s[i] == '+' || s[i] == '-');
      var j := if signed then i + 1 else i;
      var end := DigitsEnd(s, j);
      if end == j || end != |s| then None else Some(ToU64(s[j..end], signed && s[i] == '-'))
  }

  /** `kv_get_u64`. */
  function GetU64(payload: string, key: string, fallback: nat): nat {
    var text := Get(payload, key, 64);
    if text.None? || ParseU64(text.value).None? then fallback else ParseU64(text.value).value
  }

  lemma {:induction false} SkipsAll(spaces: string, rest: string, i: nat)
    requires i <= |spaces| && (forall j | 0 <= j < |spaces| :: IsSpace(spaces[j])) && (rest == "" || !IsSpace(rest[0]))
    ensures SkipSpaces(spaces + rest, i) == |spaces|
    decreases |spaces| - i
  {
    if i < |spaces| {
      SkipsAll(spaces, rest, i + 1);
    }
  }

  predicate IsSign(sign: string) {
    sign == "" || sign == "+" || sign == "-"
  }

  predicate AllSpaces(s: string) {
    forall i | 0 <= i < |s| :: IsSpace(s[i])
  }

  /** How the code finds the parts of spaces, a sign, digits and what follows them. */
  lemma PartsOfNumber(spaces: string, sign: string, digits: string, rest: string)
    requires AllSpaces(spaces) && IsSign(sign) && AllDigits(digits) && (rest == "" || !IsDigit(rest[0]))
    requires sign == "" && digits == "" && rest != "" ==> !IsSpace(rest[0]) && rest[0] != '+' && rest[0] != '-'
    ensures var (t, i, j) := (spaces + (sign + (digits + rest)), |spaces|, |spaces| + |sign|);
      && SkipSpaces(t, 0) == i && ((i < |t| && (t[i] == '+' || t[i] == '-')) <==> sign != "")
      && (sign != "" ==> (t[i] == '-' <==> sign == "-"))
      && DigitsEnd(t, j) == j + |digits| && t[j..j + |digits|] == digits
  {
    hide SkipSpaces, DigitsEnd, AllSpaces, AllDigits;
    var (t, tail) := (spaces + (sign + (digits + rest)), sign + (digits + rest));
    TailStart(sign, digits, rest);
    SpacesThen(spaces, tail);
    var j := |spaces| + |sign|;
    MiddleOf(spaces, sign, digits, rest);
    DigitsEndIs(t, j, j + |digits|);
  }

  lemma TailStart(sign: string, digits: string, rest: string)
    requires IsSign(sign) && AllDigits(digits)
    requires sign == "" && digits == "" && rest != "" ==> !IsSpace(rest[0]) && rest[0] != '+' && rest[0] != '-'
    ensures var tail := sign + (digits + rest);
      && (tail == "" || !IsSpace(tail[0])) && ((tail != "" && (tail[0] == '+' || tail[0] == '-')) <==> sign != "")
      && (sign != "" ==> tail[0] == sign[0])
  {
    if digits != "" {
      assert IsDigit(digits[0]);
    }
  }

  lemma SpacesThen(spaces: string, tail: string)
    requires AllSpaces(spaces) && (tail == "" || !IsSpace(tail[0]))
    ensures SkipSpaces(spaces + tail, 0) == |spaces| && (tail != "" ==> (spaces + tail)[|spaces|] == tail[0])
  {
    SkipsAll(spaces, tail, 0);
  }

  lemma MiddleOf(a: string, b: string, c: string, d: string)
    ensures var (t, j) := (a + (b + (c + d)), |a| + |b|);
      t[j..j + |c|] == c && (j + |c| < |t| ==> t[j + |c|] == d[0])
      && |t| == j + |c| + |d| && (b != "" ==> t[|a|] == b[0])
  {
    assert a + (b + (c + d)) == (a + b) + (c + d);
    assert ((a + b) + (c + d))[|a + b|..] == c + d;
  }

  /** Spaces, a sign, digits: the value, the largest 64-bit number when it is too big, and the wrapped one behind a minus. */
  lemma ParseOfNumber(spaces: string, sign: string, digits: string, n: nat)
    requires AllSpaces(spaces) && IsSign(sign) && |digits| > 0 && AllDigits(digits) && Value(digits) == n
    ensures ParseU64(spaces + (sign + (digits + ""))) ==
      Some(if n >= 0x1_0000_0000_0000_0000 then 0xffff_ffff_ffff_ffff
           else if sign == "-" && n > 0 then 0x1_0000_0000_0000_0000 - n
           else n)
  {
    hide Value, SkipSpaces, DigitsEnd, AllSpaces;
    PartsOfNumber(spaces, sign, digits, "");
  }

  /** Anything behind the digits, or no digits at all behind spaces and sign, and the number is not taken. */
  lemma ParseOfOther(spaces: string, sign: string, digits: string, rest: string)
    requires AllSpaces(spaces) && IsSign(sign) && AllDigits(digits) && (rest == "" || !IsDigit(rest[0]))
    requires sign == "" && digits == "" && rest != "" ==> !IsSpace(rest[0]) && rest[0] != '+' && rest[0] != '-'
    requires (rest != "" || digits == "") && spaces + sign + digits + rest != ""
    ensures ParseU64(spaces + (sign + (digits + rest))) == None
  {
    hide Value, SkipSpaces, DigitsEnd, AllSpaces;
    PartsOfNumber(spaces, sign, digits, rest);
  }

  /** Printing with `%llu` and reading back gives the same number. */
  lemma ParseOfPrint(n: nat)
    requires n < TWO_TO_THE_64
    ensures ParseU64(Print(n)) == Some(n)
  {
    var s := Print(n);
    assert IsDigit(s[0]);
    assert s[0..|s|] == s;
    DigitsEndIs(s, 0, |s|);
    ValueOfPrint(n);
  }

  lemma PrintIsShort(n: nat)
    requires n < TWO_TO_THE_64
    ensures |Print(n)| <= 20
  {
    assert Power10(20) == 100000000000000000000 by {
      assert Power10(5) == 100000;
      assert Power10(10) == 10000000000;
      assert Power10(15) == 1000000000000000;
    }
    PrintLength(n, 20);
  }

  lemma PrintHasNoSemicolon(n: nat)
    ensures ';' !in Print(n)
  {
    forall i | 0 <= i < |Print(n)| ensures Print(n)[i] != ';' {
      assert IsDigit(Print(n)[i]);
    }
  }

  /** A number field is read back, whatever the fallback. */
  lemma U64OfJoin(fields: seq<(string, string)>, j: nat, n: nat, fallback: nat)
    requires forall i | 0 <= i < |fields| :: IsField(fields[i])
    requires j < |fields| && n < TWO_TO_THE_64 && fields[j].1 == Print(n)
    requires forall i | 0 <= i < j :: fields[i].0 != fields[j].0
    ensures GetU64(Join(fields), fields[j].0, fallback) == n
  {
    PrintIsShort(n);
    GetOfJoin(fields, j, 64);
    ParseOfPrint(n);
  }
}
