/** Command parameters: limits, the canonical encoding behind params_digest, and its strict parser. */
module Params {
  import opened ByteStrings
  import opened Sorting
  import opened Readers
  import opened Results

  const DOMAIN_PARAMS := Ascii("kut-cmd-params-v2")
  const MAX_PARAM_KEYS := 32
  const MAX_PARAM_KEY_LEN := 64
  const MAX_PARAM_STRING_BYTES := 262144
  const MAX_PARAMS_TOTAL_BYTES := 524288
  const MAX_PARAM_LIST_ITEMS := 64
  const TAG_STRING: Byte := 1
  const TAG_LIST: Byte := 2

  /** A string or a list of strings. */
  datatype Param = Param(key: Bytes, value: Bytes, list: seq<Bytes>, isList: bool)

  function ParamKey(p: Param): Bytes {
    p.key
  }

  // ---- validation ---------------------------------------------------------------------

  predicate Continuation(b: Bytes, i: nat, low: Byte, high: Byte) {
    i < |b| && low <= b[i] <= high
  }

  /** The length of the well-formed UTF-8 sequence at the head of b, 0 if there is none. */
  function Utf8Head(b: Bytes): (n: nat)
    requires b != []
    ensures n <= |b|
  {
    var c := b[0];
    if c < 0x80 then 1
    else if 0xC2 <= c <= 0xDF then
      if Continuation(b, 1, 0x80, 0xBF) then 2 else 0
    else if 0xE0 <= c <= 0xEF then
      var low := if c == 0xE0 then 0xA0 else 0x80;
      var high := if c == 0xED then 0x9F else 0xBF;
      if Continuation(b, 1, low, high) && Continuation(b, 2, 0x80, 0xBF) then 3 else 0
    else if 0xF0 <= c <= 0xF4 then
      var low := if c == 0xF0 then 0x90 else 0x80;
      var high := if c == 0xF4 then 0x8F else 0xBF;
      if Continuation(b, 1, low, high) && Continuation(b, 2, 0x80, 0xBF) && Continuation(b, 3, 0x80, 0xBF) then 4 else 0
    else 0
  }

  predicate ValidUtf8(b: Bytes)
    decreases |b|
  {
    b == [] || (Utf8Head(b) > 0 && ValidUtf8(b[Utf8Head(b)..]))
  }

  predicate ValidParamString(s: Bytes) {
    |s| <= MAX_PARAM_STRING_BYTES && ValidUtf8(s) && 0 !in s
  }

  predicate ValidParamKey(k: Bytes) {
    && 0 < |k| <= MAX_PARAM_KEY_LEN
    && forall i | 0 <= i < |k| :: 97 <= k[i] <= 122 || 48 <= k[i] <= 57 || k[i] == 95
  }

  predicate ValidParam(p: Param) {
    && ValidParamKey(p.key)
    && if p.isList
       then p.value == [] && |p.list| <= MAX_PARAM_LIST_ITEMS
            && forall i | 0 <= i < |p.list| :: ValidParamString(p.list[i])
       else p.list == [] && ValidParamString(p.value)
  }

  function ItemBytes(items: seq<Bytes>): nat {
    if items == [] then 0 else ItemBytes(items[..|items| - 1]) + |items[|items| - 1]|
  }

  function ParamBytes(p: Param): nat {
    |p.key| + if p.isList then ItemBytes(p.list) else |p.value|
  }

  function TotalBytes(ps: seq<Param>): nat {
    if ps == [] then 0 else TotalBytes(ps[..|ps| - 1]) + ParamBytes(ps[|ps| - 1])
  }

  ghost predicate GoodParams(ps: seq<Param>) {
    (forall i | 0 <= i < |ps| :: ValidParam(ps[i])) && DistinctKeys(ps, ParamKey)
  }

  ghost predicate ValidParams(ps: seq<Param>) {
    |ps| <= MAX_PARAM_KEYS && GoodParams(ps) && TotalBytes(ps) <= MAX_PARAMS_TOTAL_BYTES
  }

  lemma GoodParamsSnoc(ps: seq<Param>, p: Param)
    requires GoodParams(ps)
    ensures GoodParams(ps + [p]) <==> ValidParam(p) && p.key !in KeySet(ps, ParamKey)
    ensures KeySet(ps + [p], ParamKey) == KeySet(ps, ParamKey) + {p.key}
    ensures TotalBytes(ps + [p]) == TotalBytes(ps) + ParamBytes(p)
  {
    DistinctSnoc(ps, p, ParamKey);
    TotalSnoc(ps, p);
    var more := ps + [p];
    assert more[|ps|] == p;
    assert forall i | 0 <= i < |ps| :: more[i] == ps[i];
  }

  lemma GoodParamsPrefix(ps: seq<Param>, i: nat)
    requires i <= |ps| && GoodParams(ps)
    ensures GoodParams(ps[..i])
  {
  }

  lemma {:induction false} TotalGrows(ps: seq<Param>, i: nat)
    requires i <= |ps|
    ensures TotalBytes(ps[..i]) <= TotalBytes(ps)
    decreases |ps|
  {
    if i < |ps| {
      TotalGrows(ps[..|ps| - 1], i);
      assert ps[..|ps| - 1][..i] == ps[..i];
    } else {
      assert ps[..i] == ps;
    }
  }

  lemma TotalSnoc(ps: seq<Param>, p: Param)
    ensures TotalBytes(ps + [p]) == TotalBytes(ps) + ParamBytes(p)
  {
  }

  method ValidateParam(p: Param) returns (ok: bool, bytes: nat)
    ensures ok == ValidParam(p)
    ensures ok ==> bytes == ParamBytes(p)
  {
    bytes := |p.key|;
    if !ValidParamKey(p.key) {
      return false, 0;
    }
    if p.isList {
      if p.value != [] || |p.list| > MAX_PARAM_LIST_ITEMS {
        return false, 0;
      }
      for i := 0 to |p.list|
        invariant forall j | 0 <= j < i :: ValidParamString(p.list[j])
        invariant bytes == |p.key| + ItemBytes(p.list[..i])
      {
        if !ValidParamString(p.list[i]) {
          return false, 0;
        }
        assert p.list[..i + 1][..i] == p.list[..i];
        bytes := bytes + |p.list[i]|;
      }
      assert p.list[..|p.list|] == p.list;
      return true, bytes;
    }
    if |p.list| != 0 || !ValidParamString(p.value) {
      return false, 0;
    }
    return true, bytes + |p.value|;
  }

  method ValidateParams(ps: seq<Param>) returns (ok: bool)
    ensures ok == ValidParams(ps)
  {
    if |ps| > MAX_PARAM_KEYS {
      return false;
    }
    var seen: set<Bytes>, total := {}, 0;
    for i := 0 to |ps|
      invariant GoodParams(ps[..i]) && seen == KeySet(ps[..i], ParamKey)
      invariant total == TotalBytes(ps[..i]) <= MAX_PARAMS_TOTAL_BYTES
    {
      assert ps[..i + 1] == ps[..i] + [ps[i]];
      GoodParamsSnoc(ps[..i], ps[i]);
      var paramOk, bytes := ValidateParam(ps[i]);
      if !paramOk || ps[i].key in seen {
        if GoodParams(ps) {
          GoodParamsPrefix(ps, i + 1);
        }
        return false;
      }
      seen, total := seen + {ps[i].key}, total + bytes;
      if total > MAX_PARAMS_TOTAL_BYTES {
        TotalGrows(ps, i + 1);
        return false;
      }
    }
    assert ps[..|ps|] == ps;
    return true;
  }

  lemma {:induction false} TotalConcat(ps: seq<Param>, qs: seq<Param>)
    ensures TotalBytes(ps + qs) == TotalBytes(ps) + TotalBytes(qs)
    decreases |qs|
  {
    if qs == [] {
      assert ps + qs == ps;
    } else {
      var front, last := qs[..|qs| - 1], qs[|qs| - 1];
      TotalConcat(ps, front);
      TotalSnoc(ps + front, last);
      assert (ps + front) + [last] == ps + qs;
    }
  }

  lemma TotalMiddle(front: seq<Param>, p: Param, back: seq<Param>)
    ensures TotalBytes(front + [p] + back) == ParamBytes(p) + TotalBytes(front + back)
  {
    TotalConcat(front + [p], back);
    TotalSnoc(front, p);
    TotalConcat(front, back);
  }

  lemma {:induction false} TotalPermuted(ps: seq<Param>, qs: seq<Param>)
    requires multiset(ps) == multiset(qs)
    ensures TotalBytes(ps) == TotalBytes(qs)
    decreases |ps|
  {
    SameElements(ps, qs);
    if ps != [] {
      var i := TakeOut(ps, qs);
      TotalPermuted(ps[1..], qs[..i] + qs[i + 1..]);
      assert qs == qs[..i] + [ps[0]] + qs[i + 1..];
      TotalMiddle(qs[..i], ps[0], qs[i + 1..]);
      assert ps == [] + [ps[0]] + ps[1..] && [] + ps[1..] == ps[1..];
      TotalMiddle([], ps[0], ps[1..]);
    }
  }

  lemma ValidParamsPermuted(ps: seq<Param>, qs: seq<Param>)
    requires multiset(ps) == multiset(qs) && ValidParams(ps)
    ensures ValidParams(qs)
  {
    SameElements(ps, qs);
    DistinctPermuted(ps, qs, ParamKey);
    TotalPermuted(ps, qs);
    forall i | 0 <= i < |qs| ensures ValidParam(qs[i]) {
      assert qs[i] in ps;
    }
  }

  // ---- canonical encoding -------------------------------------------------------------

  function EncodeItemsThen(items: seq<Bytes>, rest: Bytes): Bytes {
    if items == [] then rest else LP(items[0]) + EncodeItemsThen(items[1..], rest)
  }

  /** What follows the key. */
  function AfterKey(p: Param, rest: Bytes): Bytes {
    if p.isList then [TAG_LIST] + (BigEndian(|p.list|, 4) + EncodeItemsThen(p.list, rest))
    else [TAG_STRING] + (LP(p.value) + rest)
  }

  function EncodeParamThen(p: Param, rest: Bytes): Bytes {
    LP(p.key) + AfterKey(p, rest)
  }

  function EncodeParamsThen(ps: seq<Param>, rest: Bytes): Bytes {
    if ps == [] then rest else EncodeParamThen(ps[0], EncodeParamsThen(ps[1..], rest))
  }

  function ParamsHeaderThen(n: nat, rest: Bytes): Bytes {
    LP(DOMAIN_PARAMS) + (BigEndian(n, 4) + rest)
  }

  /** The preimage of params_digest: keys in byte order. */
  function EncodingOf(ps: seq<Param>): Bytes {
    ParamsHeaderThen(|ps|, EncodeParamsThen(Sort(ps, ParamKey), []))
  }

  lemma ItemsAppended(b: Bytes, items: seq<Bytes>, i: nat, rest: Bytes)
    requires i < |items|
    ensures b + EncodeItemsThen(items[i..], rest) == (b + LP(items[i])) + EncodeItemsThen(items[i + 1..], rest)
  {
  }

  method AppendParam(b: Bytes, p: Param, ghost rest: Bytes) returns (out: Bytes)
    ensures out + rest == b + EncodeParamThen(p, rest)
  {
    out := b + LP(p.key);
    if p.isList {
      ghost var items := EncodeItemsThen(p.list, rest);
      Concat3(b, LP(p.key), [TAG_LIST] + (BigEndian(|p.list|, 4) + items));
      Concat3(out, [TAG_LIST], BigEndian(|p.list|, 4) + items);
      Concat3(out + [TAG_LIST], BigEndian(|p.list|, 4), items);
      out := out + [TAG_LIST] + BigEndian(|p.list|, 4);
      assert p.list[0..] == p.list;
      for i := 0 to |p.list|
        invariant out + EncodeItemsThen(p.list[i..], rest) == b + EncodeParamThen(p, rest)
      {
        ItemsAppended(out, p.list, i, rest);
        out := out + LP(p.list[i]);
      }
    } else {
      Concat3(b, LP(p.key), [TAG_STRING] + (LP(p.value) + rest));
      Concat3(out, [TAG_STRING], LP(p.value) + rest);
      Concat3(out + [TAG_STRING], LP(p.value), rest);
      out := out + [TAG_STRING] + LP(p.value);
    }
  }

  method EncodeParams(ps: seq<Param>) returns (r: Result<Bytes, Reason>)
    ensures r == if ValidParams(ps) then Ok(EncodingOf(ps)) else Err(MalformedParams)
  {
    var valid := ValidateParams(ps);
    if !valid {
      return Err(MalformedParams);
    }
    var sorted := Sort(ps, ParamKey);
    var b := LP(DOMAIN_PARAMS) + BigEndian(|sorted|, 4);
    Concat3(LP(DOMAIN_PARAMS), BigEndian(|sorted|, 4), EncodeParamsThen(sorted, []));
    assert sorted[0..] == sorted;
    for i := 0 to |sorted|
      invariant b + EncodeParamsThen(sorted[i..], []) == EncodingOf(ps)
    {
      assert sorted[i..][1..] == sorted[i + 1..];
      b := AppendParam(b, sorted[i], EncodeParamsThen(sorted[i + 1..], []));
    }
    assert b + [] == b;
    return Ok(b);
  }

  /** The order of the parameters does not matter to the digest. */
  lemma EncodingIgnoresOrder(ps: seq<Param>, qs: seq<Param>)
    requires multiset(ps) == multiset(qs) && ValidParams(ps)
    ensures ValidParams(qs) && EncodingOf(qs) == EncodingOf(ps)
  {
    ValidParamsPermuted(ps, qs);
    SameElements(ps, qs);
    SortPermuted(ps, qs, ParamKey);
  }

  // ---- the encoding can be read back in one way ---------------------------------------

  /** The length limits the parser applies to one parameter. */
  predicate ParamShape(p: Param) {
    && |p.key| <= MAX_PARAM_KEY_LEN
    && if p.isList
       then p.value == [] && |p.list| <= MAX_PARAM_LIST_ITEMS && ShortItems(p.list)
       else p.list == [] && |p.value| <= MAX_PARAM_STRING_BYTES
  }

  predicate ShortItems(items: seq<Bytes>) {
    forall i | 0 <= i < |items| :: |items[i]| <= MAX_PARAM_STRING_BYTES
  }

  lemma {:induction false} ItemsCancel(xs: seq<Bytes>, ys: seq<Bytes>, r: Bytes, s: Bytes)
    requires |xs| == |ys| && ShortItems(xs) && ShortItems(ys)
    requires EncodeItemsThen(xs, r) == EncodeItemsThen(ys, s)
    ensures xs == ys && r == s
  {
    if xs != [] {
      LPCancel(xs[0], ys[0], EncodeItemsThen(xs[1..], r), EncodeItemsThen(ys[1..], s));
      ItemsCancel(xs[1..], ys[1..], r, s);
      assert xs == [xs[0]] + xs[1..] && ys == [ys[0]] + ys[1..];
    }
  }

  lemma ParamCancel(x: Param, y: Param, r: Bytes, s: Bytes)
    requires ParamShape(x) && ParamShape(y) && EncodeParamThen(x, r) == EncodeParamThen(y, s)
    ensures x == y && r == s
  {
    LPCancel(x.key, y.key, AfterKey(x, r), AfterKey(y, s));
    assert AfterKey(x, r)[0] == AfterKey(y, s)[0];
    assert AfterKey(x, r)[1..] == AfterKey(y, s)[1..];
    if x.isList {
      var xi, yi := EncodeItemsThen(x.list, r), EncodeItemsThen(y.list, s);
      assert AfterKey(x, r)[1..] == EncU32(|x.list|) + xi && AfterKey(y, s)[1..] == EncU32(|y.list|) + yi;
      U32Cancel(|x.list|, |y.list|, xi, yi);
      ItemsCancel(x.list, y.list, r, s);
    } else {
      assert AfterKey(x, r)[1..] == LP(x.value) + r && AfterKey(y, s)[1..] == LP(y.value) + s;
      LPCancel(x.value, y.value, r, s);
    }
  }

  ghost predicate ParamList(ps: seq<Param>, n: nat) {
    |ps| == n && StrictlySorted(ps, ParamKey) && forall i | 0 <= i < |ps| :: ParamShape(ps[i])
  }

  lemma {:induction false} ParamsCancel(xs: seq<Param>, ys: seq<Param>, r: Bytes, s: Bytes)
    requires |xs| == |ys|
    requires forall i | 0 <= i < |xs| :: ParamShape(xs[i]) && ParamShape(ys[i])
    requires EncodeParamsThen(xs, r) == EncodeParamsThen(ys, s)
    ensures xs == ys && r == s
  {
    if xs != [] {
      ParamCancel(xs[0], ys[0], EncodeParamsThen(xs[1..], r), EncodeParamsThen(ys[1..], s));
      ParamsCancel(xs[1..], ys[1..], r, s);
      assert xs == [xs[0]] + xs[1..] && ys == [ys[0]] + ys[1..];
    }
  }

  lemma ParamsHeaderCancel(m: U32, n: U32, r: Bytes, s: Bytes)
    requires ParamsHeaderThen(m, r) == ParamsHeaderThen(n, s)
    ensures m == n && r == s
  {
    LPCancel(DOMAIN_PARAMS, DOMAIN_PARAMS, EncU32(m) + r, EncU32(n) + s);
    U32Cancel(m, n, r, s);
  }

  // ---- strict parser ------------------------------------------------------------------

  ghost predicate IsEncodingOf(b: Bytes, ps: seq<Param>) {
    ValidParams(ps) && StrictlySorted(ps, ParamKey) && EncodingOf(ps) == b
  }

  /** What a strict parser must answer: the sorted parameter list encoded by b, if there is one. */
  ghost function Parsed(b: Bytes): Result<seq<Param>, Reason> {
    if exists ps :: IsEncodingOf(b, ps) then
      var ps :| IsEncodingOf(b, ps);
      Ok(ps)
    else Err(MalformedParams)
  }

  lemma EncodedForm(ps: seq<Param>)
    requires ValidParams(ps) && StrictlySorted(ps, ParamKey)
    ensures ParamList(ps, |ps|) && EncodingOf(ps) == ParamsHeaderThen(|ps|, EncodeParamsThen(ps, []))
  {
    SortOfSorted(ps, ParamKey);
    forall i | 0 <= i < |ps| ensures ParamShape(ps[i]) {
      assert ValidParam(ps[i]);
    }
  }

  /** A parse result is the sorted list with that encoding and the other way round: what the
      parser accepts re-encodes to the same bytes, and no two sorted lists share an encoding. */
  lemma ParsesExactly(b: Bytes, ps: seq<Param>)
    ensures Parsed(b) == Ok(ps) <==> IsEncodingOf(b, ps)
  {
    if IsEncodingOf(b, ps) {
      var qs := Parsed(b).value;
      EncodedForm(ps);
      EncodedForm(qs);
      ParamsHeaderCancel(|ps|, |qs|, EncodeParamsThen(ps, []), EncodeParamsThen(qs, []));
      ParamsCancel(ps, qs, [], []);
    }
  }

  /** Parsing an encoding gives the parameters back, in key order. */
  lemma ParseInvertsEncode(ps: seq<Param>)
    requires ValidParams(ps)
    ensures Parsed(EncodingOf(ps)) == Ok(Sort(ps, ParamKey))
  {
    var sorted := Sort(ps, ParamKey);
    EncodingIgnoresOrder(ps, sorted);
    SortSorted(ps, ParamKey);
    ParsesExactly(EncodingOf(ps), sorted);
  }

  lemma {:induction false} ItemsSnoc(items: seq<Bytes>, x: Bytes, rest: Bytes)
    ensures EncodeItemsThen(items + [x], rest) == EncodeItemsThen(items, LP(x) + rest)
  {
    if items == [] {
      assert items + [x] == [x] && [x][1..] == [];
    } else {
      ItemsSnoc(items[1..], x, rest);
      assert (items + [x])[1..] == items[1..] + [x];
    }
  }

  lemma {:induction false} ParamsSnoc(ps: seq<Param>, p: Param, rest: Bytes)
    ensures EncodeParamsThen(ps + [p], rest) == EncodeParamsThen(ps, EncodeParamThen(p, rest))
  {
    if ps == [] {
      assert ps + [p] == [p] && [p][1..] == [];
    } else {
      ParamsSnoc(ps[1..], p, rest);
      assert (ps + [p])[1..] == ps[1..] + [p];
    }
  }

  lemma HeadItem(items: seq<Bytes>, i: nat, rest: Bytes)
    requires i < |items| && ShortItems(items)
    ensures EncodeItemsThen(items[i..], rest) == LP(items[i]) + EncodeItemsThen(items[i + 1..], rest)
  {
  }

  method ReadItems(r: Reader, n: nat) returns (items: Option<seq<Bytes>>)
    requires !r.failed
    modifies r
    ensures items.Some? ==> !r.failed && |items.value| == n && ShortItems(items.value)
                            && old(r.b) == EncodeItemsThen(items.value, r.b)
    ensures forall xs, rest | |xs| == n && ShortItems(xs) && old(r.b) == EncodeItemsThen(xs, rest) ::
              items == Some(xs) && r.b == rest
  {
    ghost var body := r.b;
    ghost var found := exists xs, rest :: |xs| == n && ShortItems(xs) && body == EncodeItemsThen(xs, rest);
    ghost var xs, rest :| found ==> |xs| == n && ShortItems(xs) && body == EncodeItemsThen(xs, rest);
    var out: seq<Bytes> := [];
    for i := 0 to n
      invariant !r.failed && |out| == i && ShortItems(out) && body == EncodeItemsThen(out, r.b)
      invariant found ==> r.b == EncodeItemsThen(xs[i..], rest)
    {
      if found {
        HeadItem(xs, i, rest);
      }
      var x := r.ReadLP(MAX_PARAM_STRING_BYTES);
      if r.failed {
        return None;
      }
      ItemsSnoc(out, x, r.b);
      out := out + [x];
    }
    forall ys, tail | |ys| == n && ShortItems(ys) && body == EncodeItemsThen(ys, tail)
      ensures ys == out && r.b == tail
    {
      ItemsCancel(out, ys, r.b, tail);
    }
    items := Some(out);
  }

  method ReadParam(r: Reader) returns (p: Option<Param>)
    requires !r.failed
    modifies r
    ensures p.Some? ==> !r.failed && ParamShape(p.value) && old(r.b) == EncodeParamThen(p.value, r.b)
    ensures forall x, rest | ParamShape(x) && old(r.b) == EncodeParamThen(x, rest) :: p == Some(x) && r.b == rest
  {
    var key := r.ReadLP(MAX_PARAM_KEY_LEN);
    if r.failed {
      return None;
    }
    ghost var tail := r.b;
    var tag := r.ReadByte();
    if r.failed {
      return None;
    }
    forall x, rest | tail == AfterKey(x, rest)
      ensures tag == if x.isList then TAG_LIST else TAG_STRING
      ensures r.b == if x.isList then BigEndian(|x.list|, 4) + EncodeItemsThen(x.list, rest) else LP(x.value) + rest
    {
      assert tag == AfterKey(x, rest)[0] && r.b == AfterKey(x, rest)[1..];
    }
    if tag == TAG_STRING {
      var value := r.ReadLP(MAX_PARAM_STRING_BYTES);
      return if r.failed then None else Some(Param(key, value, [], false));
    }
    if tag != TAG_LIST {
      return None;
    }
    ghost var list := r.b;
    var n := r.ReadU32();
    forall x, rest | ParamShape(x) && x.isList && list == BigEndian(|x.list|, 4) + EncodeItemsThen(x.list, rest)
      ensures !r.failed && n == |x.list| && r.b == EncodeItemsThen(x.list, rest)
    {
      assert list == EncU32(|x.list|) + EncodeItemsThen(x.list, rest);
    }
    if r.failed || n > MAX_PARAM_LIST_ITEMS {
      return None;
    }
    var items := ReadItems(r, n);
    return if items.None? then None else Some(Param(key, [], items.value, true));
  }

  lemma ParamListStep(ps: seq<Param>, n: nat, p: Param)
    requires ParamList(ps, n) && ParamShape(p) && (n > 0 ==> Less(ps[n - 1].key, p.key))
    ensures ParamList(ps + [p], n + 1)
  {
    forall i | 0 <= i < n ensures Less(ParamKey(ps[i]), ParamKey(p)) {
      if i < n - 1 {
        LessTransitive(ParamKey(ps[i]), ParamKey(ps[n - 1]), ParamKey(p));
      }
    }
  }

  lemma HeadParam(ps: seq<Param>, i: nat, rest: Bytes)
    requires i < |ps|
    ensures EncodeParamsThen(ps[i..], rest) == EncodeParamThen(ps[i], EncodeParamsThen(ps[i + 1..], rest))
  {
  }

  lemma NextParam(ps: seq<Param>, n: nat, i: nat, rest: Bytes, p: Param, tail: Bytes)
    requires ParamList(ps, n) && i < n && ParamShape(p)
    requires EncodeParamsThen(ps[i..], rest) == EncodeParamThen(p, tail)
    ensures p == ps[i] && tail == EncodeParamsThen(ps[i + 1..], rest)
    ensures ps[..i] + [p] == ps[..i + 1]
    ensures i > 0 ==> Less(ps[..i][i - 1].key, p.key)
  {
    HeadParam(ps, i, rest);
    ParamCancel(ps[i], p, EncodeParamsThen(ps[i + 1..], rest), tail);
    assert i > 0 ==> Less(ParamKey(ps[i - 1]), ParamKey(ps[i]));
  }

  method ReadParamList(r: Reader, n: nat) returns (ps: Option<seq<Param>>)
    requires !r.failed
    modifies r
    ensures ps.Some? ==> !r.failed && ParamList(ps.value, n) && old(r.b) == EncodeParamsThen(ps.value, r.b)
    ensures forall xs, rest | ParamList(xs, n) && old(r.b) == EncodeParamsThen(xs, rest) :: ps.Some?
  {
    ghost var body := r.b;
    ghost var found := exists xs, rest :: ParamList(xs, n) && body == EncodeParamsThen(xs, rest);
    ghost var xs, rest :| found ==> ParamList(xs, n) && body == EncodeParamsThen(xs, rest);
    var out: seq<Param> := [];
    for i := 0 to n
      invariant !r.failed && ParamList(out, i) && body == EncodeParamsThen(out, r.b)
      invariant found ==> out == xs[..i] && r.b == EncodeParamsThen(xs[i..], rest)
    {
      if found {
        HeadParam(xs, i, rest);
      }
      var p := ReadParam(r);
      if p.None? {
        return None;
      }
      if found {
        NextParam(xs, n, i, rest, p.value, r.b);
      }
      if i > 0 && !Less(out[i - 1].key, p.value.key) {
        return None;
      }
      ParamsSnoc(out, p.value, r.b);
      ParamListStep(out, i, p.value);
      out := out + [p.value];
    }
    ps := Some(out);
  }

  /** Once the list is read, the answer hangs on leftover bytes and validity alone. */
  lemma ParsedAfterList(b: Bytes, ps: seq<Param>, rest: Bytes)
    requires |ps| < TWO_32 && ParamList(ps, |ps|) && b == ParamsHeaderThen(|ps|, EncodeParamsThen(ps, rest))
    ensures Parsed(b) == if rest == [] && ValidParams(ps) then Ok(ps) else Err(MalformedParams)
  {
    if Parsed(b).Ok? {
      var qs := Parsed(b).value;
      EncodedForm(qs);
      ParamsHeaderCancel(|qs|, |ps|, EncodeParamsThen(qs, []), EncodeParamsThen(ps, rest));
      ParamsCancel(qs, ps, [], rest);
    } else if rest == [] && ValidParams(ps) {
      EncodedForm(ps);
      assert IsEncodingOf(b, ps);
    }
  }

  method ParseParams(b: Bytes) returns (result: Result<seq<Param>, Reason>)
    ensures result == Parsed(b)
  {
    var r := new Reader(b);
    if Parsed(b).Ok? {
      var ps := Parsed(b).value;
      EncodedForm(ps);
      LPReadableField(DOMAIN_PARAMS, EncU32(|ps|) + EncodeParamsThen(ps, []), |DOMAIN_PARAMS|);
    }
    var domain := r.ReadLP(|DOMAIN_PARAMS|);
    if Parsed(b).Ok? {
      var ps := Parsed(b).value;
      LPCancel(DOMAIN_PARAMS, domain, EncU32(|ps|) + EncodeParamsThen(ps, []), r.b);
    }
    if domain != DOMAIN_PARAMS {
      return Err(MalformedParams);
    }
    var n := r.ReadU32();
    if r.failed {
      return Err(MalformedParams);
    }
    if Parsed(b).Ok? {
      var ps := Parsed(b).value;
      U32Cancel(|ps|, n, EncodeParamsThen(ps, []), r.b);
    }
    if n > MAX_PARAM_KEYS {
      return Err(MalformedParams);
    }
    var ps := ReadParamList(r, n);
    if ps.None? {
      return Err(MalformedParams);
    }
    ParsedAfterList(b, ps.value, r.b);
    var done := r.Done();
    if !done {
      return Err(MalformedParams);
    }
    var valid := ValidateParams(ps.value);
    if !valid {
      return Err(MalformedParams);
    }
    return Ok(ps.value);
  }

  // ---- size ---------------------------------------------------------------------------

  lemma {:induction false} ItemsSize(items: seq<Bytes>)
    ensures |EncodeItemsThen(items, [])| == ItemBytes(items) + 4 * |items|
  {
    if items != [] {
      ItemsSize(items[1..]);
      ItemBytesHead(items);
    }
  }

  lemma {:induction false} ItemBytesHead(items: seq<Bytes>)
    requires items != []
    ensures ItemBytes(items) == |items[0]| + ItemBytes(items[1..])
  {
    if |items| > 1 {
      ItemBytesHead(items[..|items| - 1]);
      assert items[..|items| - 1][1..] == items[1..][..|items| - 2];
    }
  }

  lemma {:induction false} ItemsThen(items: seq<Bytes>, rest: Bytes)
    ensures EncodeItemsThen(items, rest) == EncodeItemsThen(items, []) + rest
  {
    if items != [] {
      ItemsThen(items[1..], rest);
    }
  }

  lemma ParamSize(p: Param, rest: Bytes)
    requires ValidParam(p)
    ensures |EncodeParamThen(p, rest)| == ParamBytes(p) + 9 + 4 * |p.list| + |rest|
  {
    ItemsSize(p.list);
    ItemsThen(p.list, rest);
    hide EncodeItemsThen, ItemBytes, ValidParamString;
  }

  lemma {:induction false} ParamsSize(ps: seq<Param>)
    requires forall p | p in ps :: ValidParam(p)
    ensures |EncodeParamsThen(ps, [])| <= TotalBytes(ps) + 265 * |ps|
  {
    if ps != [] {
      ParamsSize(ps[1..]);
      ParamSize(ps[0], EncodeParamsThen(ps[1..], []));
      TotalMiddle([], ps[0], ps[1..]);
      assert [] + [ps[0]] + ps[1..] == ps && [] + ps[1..] == ps[1..];
      assert |ps[0].list| <= MAX_PARAM_LIST_ITEMS;
    }
  }

  /** The preimage of the digest stays below 532,794 bytes, whatever the parameters. */
  lemma EncodingSize(ps: seq<Param>)
    requires ValidParams(ps)
    ensures |EncodingOf(ps)| <= 532_793
  {
    var sorted := Sort(ps, ParamKey);
    EncodingIgnoresOrder(ps, sorted);
    forall p | p in sorted ensures ValidParam(p) {
    }
    ParamsSize(sorted);
    hide EncodeParamsThen, TotalBytes;
  }
}
