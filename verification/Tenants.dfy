/** Tenant identifiers. */
module Tenants {
  import opened Results

  /** A stored tenant identifier. The empty one is the platform for admins, policies and tokens,
      and for a device a row from before tenancy. Strings are sequences of bytes. */
  type Tenant = string

  const PLATFORM: Tenant := ""
  const DEFAULT: Tenant := "default"
  const MAX_LENGTH := 63

  /** The trimming and lower-casing of the language's string library. */
  datatype Text = Text(trim: string -> string, lower: string -> string)

  predicate LabelChar(c: char) {
    'a' <= c <= 'z' || '0' <= c <= '9' || c == '-'
  }

  predicate Valid(id: string) {
    && 0 < |id| <= MAX_LENGTH && id[0] != '-' && id[|id| - 1] != '-'
    && forall c | c in id :: LabelChar(c)
  }

  function Normalize(text: Text, id: string): Option<Tenant> {
    var t := text.lower(text.trim(id));
    if t == "" then Some(DEFAULT) else if Valid(t) then Some(t) else None
  }

  /** A label: 1 to 63 lower-case letters, digits and dashes, no dash at either end. */
  predicate IsLabel(t: string) {
    && 1 <= |t| <= 63 && (forall i | 0 <= i < |t| :: 'a' <= t[i] <= 'z' || '0' <= t[i] <= '9' || t[i] == '-')
    && t[0] != '-' && t[|t| - 1] != '-'
  }

  /** A name is accepted if and only if, trimmed and lower-cased, it is a label, which is the result, or
      nothing, which stands for the default tenant. */
  lemma NormalizedExactly(text: Text, id: string, n: string)
    ensures Normalize(text, id) == Some(n) <==>
              var t := text.lower(text.trim(id));
              if t == "" then n == "default" else IsLabel(t) && n == t
    ensures IsLabel("default")
  {
    assert forall c | c in DEFAULT :: LabelChar(c);
    var t := text.lower(text.trim(id));
    if Valid(t) {
      assert forall i | 0 <= i < |t| :: t[i] in t && LabelChar(t[i]);
    }
  }

  function Canonical(id: Tenant): Tenant {
    if id == PLATFORM then DEFAULT else id
  }

  predicate Equivalent(a: Tenant, b: Tenant) {
    Canonical(a) == Canonical(b)
  }
}
