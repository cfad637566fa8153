/** The values of the textual format, their types, and the order of map keys. */
module CodecValues {
  import opened Text
  import opened Numerals

  // ---- Characters ----------------------------------------------------------

  /** `char::is_alphabetic` and `char::is_numeric`. */
  datatype CharClass = CharClass(alphabetic: char -> bool, numeric: char -> bool)

  /** The classification agrees with ASCII, and no white space is a letter or a digit. */
  ghost predicate Faithful(u: CharClass) {
    && (forall c: char :: c < '\U{80}' ==> (u.alphabetic(c) <==> 'a' <= c <= 'z' || 'A' <= c <= 'Z'))
    && (forall c: char :: c < '\U{80}' ==> (u.numeric(c) <==> IsDigit(c)))
    && (forall c: char :: IsTrimmed(c) ==> !u.alphabetic(c) && !u.numeric(c))
  }

  predicate StartsIdentifier(u: CharClass, c: char) {
    u.alphabetic(c) || c == '_'
  }

  predicate ContinuesIdentifier(u: CharClass, c: char) {
    u.alphabetic(c) || u.numeric(c) || c == '_' || c == '$' || c == '.'
  }

  /** How many characters of `s` continue an identifier; `::` counts as two of them, a lone `:` as none. */
  function IdentifierTail(u: CharClass, s: string): (k: nat)
    ensures k <= |s|
  {
    if s == "" then 0
    else if ContinuesIdentifier(u, s[0]) then 1 + IdentifierTail(u, s[1..])
    else if s[0] == ':' && |s| > 1 && s[1] == ':' then 2 + IdentifierTail(u, s[2..])
    else 0
  }

  /** A string the identifier parser reads completely. */
  predicate IsIdentifier(u: CharClass, s: string) {
    s != "" && StartsIdentifier(u, s[0]) && IdentifierTail(u, s[1..]) == |s| - 1
  }

  // ---- Types and values ----------------------------------------------------

  /** A description of a value's Rust type; an entry is one key-value pair of a map. */
  datatype Ty =
    | TInt
    | TNat
    | TBool
    | TString
    | TOption(payload: Ty)
    | TVec(item: Ty)
    | TMap(key: Ty, value: Ty)
    | TEntry(key: Ty, value: Ty)
    | TPair(first: Ty, second: Ty)
    | TTriple(first: Ty, second: Ty, third: Ty)

  /** What recursion over types decreases; a map is above its entries. */
  function Rank(t: Ty): nat {
    match t
    case TInt | TNat | TBool | TString => 0
    case TOption(p) => 1 + Rank(p)
    case TVec(i) => 1 + Rank(i)
    case TMap(k, w) => 2 + Rank(k) + Rank(w)
    case TEntry(k, w) => 1 + Rank(k) + Rank(w)
    case TPair(a, b) => 1 + Rank(a) + Rank(b)
    case TTriple(a, b, c) => 1 + Rank(a) + Rank(b) + Rank(c)
  }

  datatype Value =
    | VInt(n: int)
    | VNat(k: nat)
    | VBool(b: bool)
    | VString(s: string)
    | VNone
    | VSome(payload: Value)
    | VVec(items: seq<Value>)
    | VMap(entries: seq<Value>)
    | VEntry(key: Value, value: Value)
    | VPair(first: Value, second: Value)
    | VTriple(first: Value, second: Value, third: Value)

  const I64_MIN: int := -0x8000_0000_0000_0000
  const I64_MAX: int := 0x7fff_ffff_ffff_ffff
  const USIZE_MAX: nat := 0xffff_ffff_ffff_ffff

  datatype Ordering = Less | Equal | Greater

  function Then(a: Ordering, b: Ordering): Ordering {
    if a.Equal? then b else a
  }

  function CompareInt(a: int, b: int): Ordering {
    if a < b then Less else if a == b then Equal else Greater
  }

  function CompareText(a: string, b: string): Ordering {
    if a == "" then (if b == "" then Equal else Less)
    else if b == "" then Greater
    else Then(CompareInt(a[0] as int, b[0] as int), CompareText(a[1..], b[1..]))
  }

  /** The order of two keys of the same type: derived, lexicographic, `None` first. */
  function Compare(a: Value, b: Value): Ordering
    decreases a, 0
  {
    match (a, b)
    case (VInt(x), VInt(y)) => CompareInt(x, y)
    case (VNat(x), VNat(y)) => CompareInt(x, y)
    case (VBool(x), VBool(y)) => CompareInt(if x then 1 else 0, if y then 1 else 0)
    case (VString(x), VString(y)) => CompareText(x, y)
    case (VNone, VNone) => Equal
    case (VNone, VSome(_)) => Less
    case (VSome(_), VNone) => Greater
    case (VSome(x), VSome(y)) => Compare(x, y)
    case (VVec(x), VVec(y)) => CompareAll(x, y)
    case (VMap(x), VMap(y)) => CompareAll(x, y)
    case (VEntry(x1, x2), VEntry(y1, y2)) => Then(Compare(x1, y1), Compare(x2, y2))
    case (VPair(x1, x2), VPair(y1, y2)) => Then(Compare(x1, y1), Compare(x2, y2))
    case (VTriple(x1, x2, x3), VTriple(y1, y2, y3)) => Then(Compare(x1, y1), Then(Compare(x2, y2), Compare(x3, y3)))
    case _ => Equal
  }

  function CompareAll(a: seq<Value>, b: seq<Value>): Ordering
    decreases a, 1
  {
    if a == [] then (if b == [] then Equal else Less)
    else if b == [] then Greater
    else Then(Compare(a[0], b[0]), CompareAll(a[1..], b[1..]))
  }

  predicate AllEntries(es: seq<Value>) {
    forall e :: e in es ==> e.VEntry?
  }

  /** The entries of a map, in the strictly ascending order a BTreeMap yields them. */
  predicate Ascending(es: seq<Value>)
    requires AllEntries(es)
  {
    forall i, j :: 0 <= i < j < |es| ==> Compare(es[i].key, es[j].key) == Less
  }

  /** Inserting one entry: a later value replaces an earlier one under the same key. */
  function Insert(es: seq<Value>, e: Value): (r: seq<Value>)
    requires AllEntries(es) && e.VEntry?
    ensures AllEntries(r) && r != []
    ensures forall x :: x in r ==> x in es || x == e || (exists y :: y in es && x == VEntry(y.key, e.value))
  {
    if es == [] then [e]
    else
      assert es[0] in es;
      match Compare(es[0].key, e.key)
      case Less => [es[0]] + Insert(es[1..], e)
      case Equal => [VEntry(es[0].key, e.value)] + es[1..]
      case Greater => [e] + es
  }

  /** Collecting parsed entries into a BTreeMap, one after the other. */
  function Collect(es: seq<Value>): (r: seq<Value>)
    requires AllEntries(es)
    ensures AllEntries(r)
  {
    if es == [] then [] else
      assert es[|es| - 1] in es;
      Insert(Collect(es[..|es| - 1]), es[|es| - 1])
  }

  /** A value of the type all of whose strings are identifiers. */
  predicate HasType(u: CharClass, t: Ty, v: Value)
    decreases v
  {
    match (t, v)
    case (TInt, VInt(n)) => I64_MIN <= n <= I64_MAX
    case (TNat, VNat(k)) => k <= USIZE_MAX
    case (TBool, VBool(_)) => true
    case (TString, VString(s)) => IsIdentifier(u, s)
    case (TOption(p), VNone) => true
    case (TOption(p), VSome(x)) => HasType(u, p, x)
    case (TVec(i), VVec(xs)) => forall x :: x in xs ==> HasType(u, i, x)
    case (TMap(k, w), VMap(es)) =>
      AllEntries(es) && Ascending(es) && forall e :: e in es ==> HasType(u, TEntry(k, w), e)
    case (TEntry(k, w), VEntry(x, y)) => HasType(u, k, x) && HasType(u, w, y)
    case (TPair(a, b), VPair(x, y)) => HasType(u, a, x) && HasType(u, b, y)
    case (TTriple(a, b, c), VTriple(x, y, z)) => HasType(u, a, x) && HasType(u, b, y) && HasType(u, c, z)
    case _ => false
  }

  /** A value of the Rust type the description stands for; strings are arbitrary. */
  predicate HasRustType(t: Ty, v: Value)
    decreases v
  {
    match (t, v)
    case (TInt, VInt(n)) => I64_MIN <= n <= I64_MAX
    case (TNat, VNat(k)) => k <= USIZE_MAX
    case (TBool, VBool(_)) => true
    case (TString, VString(_)) => true
    case (TOption(p), VNone) => true
    case (TOption(p), VSome(x)) => HasRustType(p, x)
    case (TVec(i), VVec(xs)) => forall x :: x in xs ==> HasRustType(i, x)
    case (TMap(k, w), VMap(es)) =>
      AllEntries(es) && Ascending(es) && forall e :: e in es ==> HasRustType(TEntry(k, w), e)
    case (TEntry(k, w), VEntry(x, y)) => HasRustType(k, x) && HasRustType(w, y)
    case (TPair(a, b), VPair(x, y)) => HasRustType(a, x) && HasRustType(b, y)
    case (TTriple(a, b, c), VTriple(x, y, z)) => HasRustType(a, x) && HasRustType(b, y) && HasRustType(c, z)
    case _ => false
  }

  /** Every string inside is an identifier. */
  predicate Legible(u: CharClass, v: Value)
    decreases v
  {
    match v
    case VInt(_) | VNat(_) | VBool(_) | VNone => true
    case VString(s) => IsIdentifier(u, s)
    case VSome(x) => Legible(u, x)
    case VVec(xs) => forall x :: x in xs ==> Legible(u, x)
    case VMap(es) => forall e :: e in es ==> Legible(u, e)
    case VEntry(x, y) => Legible(u, x) && Legible(u, y)
    case VPair(x, y) => Legible(u, x) && Legible(u, y)
    case VTriple(x, y, z) => Legible(u, x) && Legible(u, y) && Legible(u, z)
  }
}
