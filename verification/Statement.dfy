/** Trust statements: structural validation, the canonical encoding and its strict parser. */
module Statements {
  import opened ByteStrings
  import opened Sorting
  import opened Crypto
  import opened Dsse
  import opened Readers
  import opened Results

  const DOMAIN_TRUST := Ascii("kut-cmd-trust-v2")
  const MAX_STATEMENT_KEYS := 32
  const MAX_VERIFY_MODE := 2

  const ROLE_ROOT: U32 := 1
  const ROLE_COMMAND: U32 := 2
  const ROLE_APPROVER: U32 := 3

  datatype KeyEntry = KeyEntry(keyId: Bytes, pub: Bytes, role: U32, notBefore: I64, notAfter: I64) {
    /** An expiry of 0 means the key never expires. */
    predicate InWindow(at: I64) {
      at >= notBefore && (notAfter == 0 || at <= notAfter)
    }
  }

  datatype Statement = Statement(
    epoch: U64, keys: seq<KeyEntry>, rootThreshold: U32, issuedAt: I64,
    minVerifyMode: U32, minAgentBuild: U64, signatures: seq<Signature>)

  function EntryId(k: KeyEntry): Bytes {
    k.keyId
  }

  // ---- keys by role -------------------------------------------------------------------

  /** The entries whose role is among roles, indexed by key id; a later entry replaces an
      earlier one with the same id. */
  function KeysOfRole(keys: seq<KeyEntry>, roles: set<U32>): map<Bytes, KeyEntry> {
    if keys == [] then map[]
    else
      var last := keys[|keys| - 1];
      var rest := KeysOfRole(keys[..|keys| - 1], roles);
      if last.role in roles then rest[last.keyId := last] else rest
  }

  function RootsOf(keys: seq<KeyEntry>): map<Bytes, KeyEntry> {
    KeysOfRole(keys, {ROLE_ROOT})
  }

  function NonRootsOf(keys: seq<KeyEntry>): map<Bytes, KeyEntry> {
    KeysOfRole(keys, {ROLE_COMMAND, ROLE_APPROVER})
  }

  lemma {:induction false} KeysOfRoleSound(keys: seq<KeyEntry>, roles: set<U32>)
    ensures forall id | id in KeysOfRole(keys, roles) ::
              var k := KeysOfRole(keys, roles)[id]; k in keys && k.keyId == id && k.role in roles
    ensures forall k | k in keys && k.role in roles :: k.keyId in KeysOfRole(keys, roles)
  {
    if keys != [] {
      KeysOfRoleSound(keys[..|keys| - 1], roles);
      assert keys == keys[..|keys| - 1] + [keys[|keys| - 1]];
    }
  }

  lemma SameIdSameEntry(keys: seq<KeyEntry>, j: KeyEntry, k: KeyEntry)
    requires DistinctKeys(keys, EntryId) && j in keys && k in keys && j.keyId == k.keyId
    ensures j == k
  {
  }

  /** With distinct ids the index by role does not depend on the order of the list. */
  lemma KeysOfRolePermuted(xs: seq<KeyEntry>, ys: seq<KeyEntry>, roles: set<U32>)
    requires DistinctKeys(xs, EntryId) && multiset(xs) == multiset(ys)
    ensures KeysOfRole(xs, roles) == KeysOfRole(ys, roles)
  {
    SameElements(xs, ys);
    KeysOfRoleSound(xs, roles);
    KeysOfRoleSound(ys, roles);
    var m, n := KeysOfRole(xs, roles), KeysOfRole(ys, roles);
    forall id ensures id in m <==> id in n {
      assert id in m ==> m[id] in ys;
      assert id in n ==> n[id] in xs;
    }
    forall id | id in m ensures m[id] == n[id] {
      SameIdSameEntry(xs, m[id], n[id]);
    }
  }

  // ---- validation ---------------------------------------------------------------------

  predicate ValidEntry(c: Primitives, k: KeyEntry) {
    && |k.pub| == PUBLIC_KEY_SIZE && k.keyId == KeyId(c, k.pub)
    && !IsWeak(c, k.pub)
    && (k.role == ROLE_ROOT || ((k.role == ROLE_COMMAND || k.role == ROLE_APPROVER) && k.notAfter != 0))
    && k.notBefore >= 0 && k.notAfter >= 0 && (k.notAfter == 0 || k.notAfter > k.notBefore)
  }

  ghost predicate ValidKeys(c: Primitives, keys: seq<KeyEntry>) {
    && (forall i | 0 <= i < |keys| :: ValidEntry(c, keys[i]))
    && DistinctKeys(keys, EntryId)
  }

  ghost predicate ValidStatement(c: Primitives, st: Statement) {
    && st.epoch != 0
    && st.issuedAt > 0
    && st.minVerifyMode <= MAX_VERIFY_MODE
    && 1 <= |st.keys| <= MAX_STATEMENT_KEYS
    && ValidKeys(c, st.keys)
    && 1 <= st.rootThreshold <= |RootsOf(st.keys)|
    && |st.signatures| <= MAX_SIGNATURES
    && forall i | 0 <= i < |st.signatures| :: WellFormedSignature(st.signatures[i])
  }

  lemma RootsStep(keys: seq<KeyEntry>, k: KeyEntry)
    requires k.keyId !in KeySet(keys, EntryId)
    ensures |RootsOf(keys + [k])| == |RootsOf(keys)| + if k.role == ROLE_ROOT then 1 else 0
  {
    KeysOfRoleSound(keys, {ROLE_ROOT});
    assert (keys + [k])[..|keys|] == keys;
  }

  /** One more key: what the validation loop checks and counts is what it must. */
  lemma ValidKeysStep(c: Primitives, keys: seq<KeyEntry>, k: KeyEntry)
    requires ValidKeys(c, keys)
    ensures ValidKeys(c, keys + [k]) <==> ValidEntry(c, k) && k.keyId !in KeySet(keys, EntryId)
  {
    DistinctSnoc(keys, k, EntryId);
    var more := keys + [k];
    assert more[|keys|] == k;
    assert forall i | 0 <= i < |keys| :: more[i] == keys[i];
  }

  lemma ValidKeysPrefix(c: Primitives, keys: seq<KeyEntry>, i: nat)
    requires i <= |keys| && ValidKeys(c, keys)
    ensures ValidKeys(c, keys[..i])
  {
  }

  method ValidateKeys(c: Primitives, keys: seq<KeyEntry>) returns (ok: bool, roots: nat)
    ensures ok == ValidKeys(c, keys)
    ensures ok ==> roots == |RootsOf(keys)|
  {
    var seen: set<Bytes> := {};
    roots := 0;
    for i := 0 to |keys|
      invariant ValidKeys(c, keys[..i])
      invariant seen == KeySet(keys[..i], EntryId)
      invariant roots == |RootsOf(keys[..i])|
    {
      assert keys[..i + 1] == keys[..i] + [keys[i]];
      ValidKeysStep(c, keys[..i], keys[i]);
      DistinctSnoc(keys[..i], keys[i], EntryId);
      if !ValidEntry(c, keys[i]) || keys[i].keyId in seen {
        if ValidKeys(c, keys) {
          ValidKeysPrefix(c, keys, i + 1);
        }
        return false, 0;
      }
      RootsStep(keys[..i], keys[i]);
      seen := seen + {keys[i].keyId};
      if keys[i].role == ROLE_ROOT {
        roots := roots + 1;
      }
    }
    assert keys[..|keys|] == keys;
    ok := true;
  }

  method Validate(c: Primitives, st: Statement) returns (ok: bool)
    ensures ok == ValidStatement(c, st)
  {
    if st.epoch == 0 || st.issuedAt <= 0 || st.minVerifyMode > MAX_VERIFY_MODE {
      return false;
    }
    if |st.keys| < 1 || |st.keys| > MAX_STATEMENT_KEYS {
      return false;
    }
    var keysOk, roots := ValidateKeys(c, st.keys);
    if !keysOk || roots < 1 || st.rootThreshold < 1 || st.rootThreshold > roots {
      return false;
    }
    if |st.signatures| > MAX_SIGNATURES {
      return false;
    }
    for i := 0 to |st.signatures|
      invariant forall j | 0 <= j < i :: WellFormedSignature(st.signatures[j])
    {
      if !WellFormedSignature(st.signatures[i]) {
        return false;
      }
    }
    return true;
  }

  /** The verdict does not depend on the order in which the keys are listed. */
  lemma ValidityIgnoresKeyOrder(c: Primitives, st: Statement, keys: seq<KeyEntry>)
    requires multiset(keys) == multiset(st.keys)
    ensures ValidStatement(c, st.(keys := keys)) == ValidStatement(c, st)
  {
    var other := st.(keys := keys);
    if ValidStatement(c, st) {
      ValidityKept(c, st, keys);
    }
    if ValidStatement(c, other) {
      ValidityKept(c, other, st.keys);
      assert other.(keys := st.keys) == st;
    }
  }

  lemma ValidityKept(c: Primitives, st: Statement, keys: seq<KeyEntry>)
    requires multiset(keys) == multiset(st.keys) && ValidStatement(c, st)
    ensures ValidStatement(c, st.(keys := keys))
  {
    SameElements(keys, st.keys);
    DistinctPermuted(st.keys, keys, EntryId);
    KeysOfRolePermuted(st.keys, keys, {ROLE_ROOT});
    forall i | 0 <= i < |keys| ensures ValidEntry(c, keys[i]) {
      assert keys[i] in st.keys;
    }
  }

  // ---- canonical encoding -------------------------------------------------------------

  /** The encoding of one key, followed by rest. */
  function EncodeKeyThen(k: KeyEntry, rest: Bytes): Bytes {
    LP(k.keyId) + (LP(k.pub) + (EncU32(k.role) + (EncI64(k.notBefore) + (EncI64(k.notAfter) + rest))))
  }

  function EncodeKeysThen(keys: seq<KeyEntry>, rest: Bytes): Bytes {
    if keys == [] then rest else EncodeKeyThen(keys[0], EncodeKeysThen(keys[1..], rest))
  }

  /** The fixed fields of a statement with n keys, followed by rest. */
  function EncodeHeaderThen(st: Statement, n: nat, rest: Bytes): Bytes {
    LP(DOMAIN_TRUST) + (EncU64(st.epoch) + (EncU32(st.rootThreshold) + (EncI64(st.issuedAt)
    + (EncU32(st.minVerifyMode) + (EncU64(st.minAgentBuild) + (BigEndian(n, 4) + rest))))))
  }

  /** The signed message body: keys in key-id order, signatures not included. */
  function Encode(st: Statement): Bytes {
    EncodeHeaderThen(st, |st.keys|, EncodeKeysThen(Sort(st.keys, EntryId), []))
  }

  lemma HeaderAppended(st: Statement, n: nat, rest: Bytes)
    ensures LP(DOMAIN_TRUST) + EncU64(st.epoch) + EncU32(st.rootThreshold) + EncI64(st.issuedAt)
            + EncU32(st.minVerifyMode) + EncU64(st.minAgentBuild) + BigEndian(n, 4) + rest
         == EncodeHeaderThen(st, n, rest)
  {
  }

  lemma KeyAppended(b: Bytes, k: KeyEntry, rest: Bytes)
    ensures b + LP(k.keyId) + LP(k.pub) + EncU32(k.role) + EncI64(k.notBefore) + EncI64(k.notAfter) + rest
         == b + EncodeKeyThen(k, rest)
  {
  }

  method EncodeStatement(st: Statement) returns (b: Bytes)
    ensures b == Encode(st)
  {
    var keys := Sort(st.keys, EntryId);
    b := LP(DOMAIN_TRUST) + EncU64(st.epoch) + EncU32(st.rootThreshold) + EncI64(st.issuedAt)
         + EncU32(st.minVerifyMode) + EncU64(st.minAgentBuild) + BigEndian(|keys|, 4);
    HeaderAppended(st, |keys|, EncodeKeysThen(keys, []));
    assert keys[0..] == keys;
    for i := 0 to |keys|
      invariant b + EncodeKeysThen(keys[i..], []) == Encode(st)
    {
      var k := keys[i];
      assert keys[i..][1..] == keys[i + 1..];
      KeyAppended(b, k, EncodeKeysThen(keys[i + 1..], []));
      b := b + LP(k.keyId) + LP(k.pub) + EncU32(k.role) + EncI64(k.notBefore) + EncI64(k.notAfter);
    }
    assert b == b + [];
  }

  /** What the encoding retains of a statement: keys in order, no signatures. */
  function Canon(st: Statement): Statement {
    st.(keys := Sort(st.keys, EntryId), signatures := [])
  }

  lemma CanonValid(c: Primitives, st: Statement)
    requires ValidStatement(c, st)
    ensures ValidStatement(c, Canon(st)) && StrictlySorted(Canon(st).keys, EntryId)
    ensures Canon(Canon(st)) == Canon(st) && Encode(Canon(st)) == Encode(st)
  {
    ValidityKept(c, st, Sort(st.keys, EntryId));
    SortSorted(st.keys, EntryId);
    SortOfSorted(Sort(st.keys, EntryId), EntryId);
  }

  lemma {:induction false} KeysCancel(xs: seq<KeyEntry>, ys: seq<KeyEntry>, r: Bytes, s: Bytes)
    requires |xs| == |ys|
    requires forall k | k in xs :: |k.keyId| < TWO_32 && |k.pub| < TWO_32
    requires forall k | k in ys :: |k.keyId| < TWO_32 && |k.pub| < TWO_32
    requires EncodeKeysThen(xs, r) == EncodeKeysThen(ys, s)
    ensures xs == ys && r == s
  {
    if xs != [] {
      KeyCancel(xs[0], ys[0], EncodeKeysThen(xs[1..], r), EncodeKeysThen(ys[1..], s));
      KeysCancel(xs[1..], ys[1..], r, s);
      assert xs == [xs[0]] + xs[1..] && ys == [ys[0]] + ys[1..];
    }
  }

  lemma KeyCancel(x: KeyEntry, y: KeyEntry, r: Bytes, s: Bytes)
    requires |x.keyId| < TWO_32 && |x.pub| < TWO_32 && |y.keyId| < TWO_32 && |y.pub| < TWO_32
    requires EncodeKeyThen(x, r) == EncodeKeyThen(y, s)
    ensures x == y && r == s
  {
    var r5, s5 := EncI64(x.notAfter) + r, EncI64(y.notAfter) + s;
    var r4, s4 := EncI64(x.notBefore) + r5, EncI64(y.notBefore) + s5;
    var r3, s3 := EncU32(x.role) + r4, EncU32(y.role) + s4;
    LPCancel(x.keyId, y.keyId, LP(x.pub) + r3, LP(y.pub) + s3);
    LPCancel(x.pub, y.pub, r3, s3);
    U32Cancel(x.role, y.role, r4, s4);
    I64Cancel(x.notBefore, y.notBefore, r5, s5);
    I64Cancel(x.notAfter, y.notAfter, r, s);
  }

  lemma HeaderCancel(x: Statement, y: Statement, m: U32, n: U32, r: Bytes, s: Bytes)
    requires EncodeHeaderThen(x, m, r) == EncodeHeaderThen(y, n, s)
    ensures x == y.(keys := x.keys, signatures := x.signatures) && m == n && r == s
  {
    var r6, s6 := EncU32(m) + r, EncU32(n) + s;
    var r5, s5 := EncU64(x.minAgentBuild) + r6, EncU64(y.minAgentBuild) + s6;
    var r4, s4 := EncU32(x.minVerifyMode) + r5, EncU32(y.minVerifyMode) + s5;
    var r3, s3 := EncI64(x.issuedAt) + r4, EncI64(y.issuedAt) + s4;
    var r2, s2 := EncU32(x.rootThreshold) + r3, EncU32(y.rootThreshold) + s3;
    LPCancel(DOMAIN_TRUST, DOMAIN_TRUST, EncU64(x.epoch) + r2, EncU64(y.epoch) + s2);
    U64Cancel(x.epoch, y.epoch, r2, s2);
    U32Cancel(x.rootThreshold, y.rootThreshold, r3, s3);
    I64Cancel(x.issuedAt, y.issuedAt, r4, s4);
    U32Cancel(x.minVerifyMode, y.minVerifyMode, r5, s5);
    U64Cancel(x.minAgentBuild, y.minAgentBuild, r6, s6);
    U32Cancel(m, n, r, s);
  }

  lemma SortedKeySizes(c: Primitives, keys: seq<KeyEntry>)
    requires ValidKeys(c, keys)
    ensures forall k | k in Sort(keys, EntryId) :: |k.keyId| == KEY_ID_HEX_LEN && |k.pub| == PUBLIC_KEY_SIZE
  {
    SameElements(Sort(keys, EntryId), keys);
  }

  /** Two valid statements with the same encoding differ at most in key order and signatures. */
  lemma EncodeInjective(c: Primitives, x: Statement, y: Statement)
    requires ValidStatement(c, x) && ValidStatement(c, y) && Encode(x) == Encode(y)
    ensures Canon(x) == Canon(y)
  {
    var xs, ys := Sort(x.keys, EntryId), Sort(y.keys, EntryId);
    HeaderCancel(x, y, |x.keys|, |y.keys|, EncodeKeysThen(xs, []), EncodeKeysThen(ys, []));
    SortedKeySizes(c, x.keys);
    SortedKeySizes(c, y.keys);
    KeysCancel(xs, ys, [], []);
  }

  /** 56 bytes of fixed fields and 92 bytes a key: at most 3000, inside the payload limit. */
  lemma EncodedSize(c: Primitives, st: Statement)
    requires ValidStatement(c, st)
    ensures |Encode(st)| == 56 + 92 * |st.keys| <= 3000 < MAX_PAYLOAD_BYTES
  {
    CanonValid(c, st);
    KeysSize(c, Canon(st).keys);
  }

  lemma {:induction false} KeysSize(c: Primitives, keys: seq<KeyEntry>)
    requires forall i | 0 <= i < |keys| :: ValidEntry(c, keys[i])
    ensures |EncodeKeysThen(keys, [])| == 92 * |keys|
  {
    if keys != [] {
      KeysSize(c, keys[1..]);
    }
  }

  // ---- strict parser ------------------------------------------------------------------

  /** b is the encoding of st, and st is the canonical statement with that encoding. */
  ghost predicate IsEncodingOf(c: Primitives, b: Bytes, st: Statement) {
    && ValidStatement(c, st) && StrictlySorted(st.keys, EntryId) && st.signatures == []
    && Encode(st) == b
  }

  /** What a strict parser must answer: the canonical statement encoded by b, if there is one. */
  ghost function Parsed(c: Primitives, b: Bytes): Result<Statement, Reason> {
    if exists st :: IsEncodingOf(c, b, st) then
      var st :| IsEncodingOf(c, b, st);
      Ok(st)
    else Err(MalformedStatement)
  }

  /** A parse result is the canonical statement with that encoding and the other way round: what
      the parser accepts re-encodes to the same bytes, and no two statements share an encoding. */
  lemma ParsesExactly(c: Primitives, b: Bytes, st: Statement)
    ensures Parsed(c, b) == Ok(st) <==> IsEncodingOf(c, b, st)
  {
    if IsEncodingOf(c, b, st) {
      var other := Parsed(c, b).value;
      EncodeInjective(c, st, other);
      SortOfSorted(st.keys, EntryId);
      SortOfSorted(other.keys, EntryId);
    }
  }

  /** Parsing an encoding gives the statement back, keys in order and signatures dropped. */
  lemma ParseInvertsEncode(c: Primitives, st: Statement)
    requires ValidStatement(c, st)
    ensures Parsed(c, Encode(st)) == Ok(Canon(st))
  {
    CanonValid(c, st);
    ParsesExactly(c, Encode(st), Canon(st));
  }

  lemma {:induction false} KeysSnoc(keys: seq<KeyEntry>, k: KeyEntry, rest: Bytes)
    ensures EncodeKeysThen(keys + [k], rest) == EncodeKeysThen(keys, EncodeKeyThen(k, rest))
  {
    if keys == [] {
      assert keys + [k] == [k] && [k][1..] == [];
    } else {
      KeysSnoc(keys[1..], k, rest);
      assert (keys + [k])[1..] == keys[1..] + [k];
    }
  }

  method ReadHeader(r: Reader) returns (header: Option<Statement>, n: U32)
    requires !r.failed
    modifies r
    ensures header.Some? ==> !r.failed && old(r.b) == EncodeHeaderThen(header.value, n, r.b)
                             && header.value.keys == [] && header.value.signatures == []
    ensures forall x, m: U32, rest | old(r.b) == EncodeHeaderThen(x, m, rest) :: header.Some?
  {
    var domain := r.ReadLP(|DOMAIN_TRUST|);
    if domain != DOMAIN_TRUST {
      return None, 0;
    }
    var epoch := r.ReadU64();
    var rootThreshold := r.ReadU32();
    var issuedAt := r.ReadI64();
    var minVerifyMode := r.ReadU32();
    var minAgentBuild := r.ReadU64();
    n := r.ReadU32();
    if r.failed {
      return None, 0;
    }
    header := Some(Statement(epoch, [], rootThreshold, issuedAt, minVerifyMode, minAgentBuild, []));
  }

  method ReadKey(r: Reader) returns (k: KeyEntry)
    modifies r
    ensures old(r.failed) ==> r.failed
    ensures !r.failed ==> old(r.b) == EncodeKeyThen(k, r.b) && |k.keyId| <= KEY_ID_HEX_LEN && |k.pub| <= PUBLIC_KEY_SIZE
    ensures forall x, rest | !old(r.failed) && old(r.b) == EncodeKeyThen(x, rest)
              && |x.keyId| <= KEY_ID_HEX_LEN && |x.pub| <= PUBLIC_KEY_SIZE :: !r.failed && k == x && r.b == rest
  {
    var keyId := r.ReadLP(KEY_ID_HEX_LEN);
    var pub := r.ReadLP(PUBLIC_KEY_SIZE);
    var role := r.ReadU32();
    var notBefore := r.ReadI64();
    var notAfter := r.ReadI64();
    k := KeyEntry(keyId, pub, role, notBefore, notAfter);
  }

  ghost predicate KeyList(xs: seq<KeyEntry>, n: nat) {
    && |xs| == n && StrictlySorted(xs, EntryId)
    && forall k | k in xs :: |k.keyId| <= KEY_ID_HEX_LEN && |k.pub| <= PUBLIC_KEY_SIZE
  }

  lemma HeadKey(xs: seq<KeyEntry>, i: nat, rest: Bytes)
    requires i < |xs|
    ensures EncodeKeysThen(xs[i..], rest) == EncodeKeyThen(xs[i], EncodeKeysThen(xs[i + 1..], rest))
  {
  }

  lemma NextKey(xs: seq<KeyEntry>, n: nat, i: nat, k: KeyEntry)
    requires KeyList(xs, n) && i < n && k == xs[i]
    ensures xs[..i] + [k] == xs[..i + 1]
    ensures i > 0 ==> Less(xs[..i][i - 1].keyId, k.keyId)
  {
  }

  lemma KeyListStep(xs: seq<KeyEntry>, n: nat, k: KeyEntry)
    requires KeyList(xs, n) && |k.keyId| <= KEY_ID_HEX_LEN && |k.pub| <= PUBLIC_KEY_SIZE
    requires n > 0 ==> Less(xs[n - 1].keyId, k.keyId)
    ensures KeyList(xs + [k], n + 1)
  {
    forall i | 0 <= i < n ensures Less(EntryId(xs[i]), EntryId(k)) {
      if i < n - 1 {
        LessTransitive(EntryId(xs[i]), EntryId(xs[n - 1]), EntryId(k));
      }
    }
  }

  /** Reads n keys in strictly increasing id order, exactly when the input starts with such a list. */
  method ReadKeys(r: Reader, n: nat) returns (keys: Option<seq<KeyEntry>>)
    requires !r.failed
    modifies r
    ensures keys.Some? ==> !r.failed && KeyList(keys.value, n) && old(r.b) == EncodeKeysThen(keys.value, r.b)
    ensures forall xs, rest | KeyList(xs, n) && old(r.b) == EncodeKeysThen(xs, rest) :: keys.Some?
  {
    ghost var body := r.b;
    ghost var found := exists xs, rest :: KeyList(xs, n) && body == EncodeKeysThen(xs, rest);
    ghost var xs, rest :| found ==> KeyList(xs, n) && body == EncodeKeysThen(xs, rest);
    var out: seq<KeyEntry> := [];
    for i := 0 to n
      invariant !r.failed && KeyList(out, i) && body == EncodeKeysThen(out, r.b)
      invariant found ==> out == xs[..i] && r.b == EncodeKeysThen(xs[i..], rest)
    {
      if found {
        HeadKey(xs, i, rest);
      }
      var k := ReadKey(r);
      if found {
        NextKey(xs, n, i, k);
      }
      if r.failed || (i > 0 && !Less(out[i - 1].keyId, k.keyId)) {
        return None;
      }
      KeysSnoc(out, k, r.b);
      KeyListStep(out, i, k);
      out := out + [k];
    }
    keys := Some(out);
  }

  /** An input that parses starts with a header and is continued by the key list of the result. */
  lemma ParsedShape(c: Primitives, b: Bytes)
    requires Parsed(c, b).Ok?
    ensures var st := Parsed(c, b).value;
            KeyList(st.keys, |st.keys|) && |st.keys| <= MAX_STATEMENT_KEYS
            && b == EncodeHeaderThen(st, |st.keys|, EncodeKeysThen(st.keys, []))
  {
    var st := Parsed(c, b).value;
    SortOfSorted(st.keys, EntryId);
    SortedKeySizes(c, st.keys);
  }

  lemma HeaderReadBack(c: Primitives, b: Bytes, header: Statement, n: U32, tail: Bytes)
    requires Parsed(c, b).Ok? && b == EncodeHeaderThen(header, n, tail)
    ensures var st := Parsed(c, b).value;
            n == |st.keys| <= MAX_STATEMENT_KEYS && KeyList(st.keys, n) && tail == EncodeKeysThen(st.keys, [])
            && st == header.(keys := st.keys, signatures := st.signatures)
  {
    ParsedShape(c, b);
    var st := Parsed(c, b).value;
    HeaderCancel(st, header, |st.keys|, n, EncodeKeysThen(st.keys, []), tail);
  }

  /** Once header and keys are read, the answer hangs on leftover bytes and validity alone. */
  lemma ParsedAfterKeys(c: Primitives, b: Bytes, header: Statement, keys: seq<KeyEntry>, rest: Bytes)
    requires |keys| < TWO_32 && KeyList(keys, |keys|) && header.signatures == []
    requires b == EncodeHeaderThen(header, |keys|, EncodeKeysThen(keys, rest))
    ensures Parsed(c, b) == if rest == [] && ValidStatement(c, header.(keys := keys))
                            then Ok(header.(keys := keys)) else Err(MalformedStatement)
  {
    var st := header.(keys := keys);
    if Parsed(c, b).Ok? {
      var w := Parsed(c, b).value;
      HeaderReadBack(c, b, header, |keys|, EncodeKeysThen(keys, rest));
      KeysCancel(w.keys, keys, [], rest);
      assert w.signatures == [];
      assert w == st;
    } else if rest == [] && ValidStatement(c, st) {
      SortOfSorted(keys, EntryId);
      assert IsEncodingOf(c, b, st);
    }
  }

  /** ParseStatement: the strict parser answers exactly what `Parsed` says. */
  method ParseStatement(c: Primitives, b: Bytes) returns (result: Result<Statement, Reason>)
    ensures result == Parsed(c, b)
  {
    var r := new Reader(b);
    var header, n := ReadHeader(r);
    if header.None? {
      if Parsed(c, b).Ok? {
        ParsedShape(c, b);
      }
      return Err(MalformedStatement);
    }
    if Parsed(c, b).Ok? {
      HeaderReadBack(c, b, header.value, n, r.b);
    }
    if n > MAX_STATEMENT_KEYS {
      return Err(MalformedStatement);
    }
    var keys := ReadKeys(r, n);
    if keys.None? {
      return Err(MalformedStatement);
    }
    ParsedAfterKeys(c, b, header.value, keys.value, r.b);
    var done := r.Done();
    if !done {
      return Err(MalformedStatement);
    }
    var st := header.value.(keys := keys.value);
    var valid := Validate(c, st);
    if !valid {
      return Err(MalformedStatement);
    }
    return Ok(st);
  }
}
