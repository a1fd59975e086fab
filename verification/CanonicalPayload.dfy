/** The canonical form of an imported Chrome profile: validated, sorted and free of duplicates. */
module CanonicalPayload {
  import opened Outcomes
  import opened Text
  import opened StringOrder
  import opened StableSort
  import opened CookieOrder

  const MAX_PLAINTEXT_BYTES: nat := 64 * 1024 * 1024
  const MAX_COOKIES: nat := 20_000
  const MAX_LOCAL_STORAGE_ENTRIES: nat := 10_000

  type Bytes = seq<nat>

  datatype Cookie = Cookie(
    name: string, value: string, domain: Option<string>, path: string,
    secure: bool, httpOnly: bool, sameSite: string, expires: Option<int>)
  datatype StorageEntry = StorageEntry(key: string, value: string)
  datatype Inventory = Inventory(cookies: seq<Cookie>, storage: seq<StorageEntry>)

  /** The launch URL's host, if it has one, and whether its scheme is https. */
  datatype Origin = Origin(host: Option<string>, https: bool)

  /** The strict JSON reader, the JSON writer, and SHA-256 in hexadecimal. */
  datatype Codec = Codec(decode: Bytes -> Option<Inventory>, encode: Inventory -> Bytes, digest: Bytes -> string)

  datatype PayloadError = LimitExceeded | InvalidPayload
  datatype Payload = Payload(bytes: Bytes, inventorySha256: string, cookieCount: nat, storageCount: nat)

  // ---- One cookie --------------------------------------------------------------------------

  predicate EndsWith(s: string, end: string) {
    |end| <= |s| && s[|s| - |end|..] == end
  }

  function WithoutLeadingDot(domain: string): string {
    if domain != "" && domain[0] == '.' then domain[1..] else domain
  }

  predicate ValidDomain(domain: string, host: string) {
    var normalized := WithoutLeadingDot(domain);
    && normalized != "" && '/' !in normalized && ':' !in normalized && '\0' !in normalized
    && (Lowered(host) == Lowered(normalized) || EndsWith(Lowered(host), "." + Lowered(normalized)))
  }

  predicate ValidName(name: string) {
    && name != "" && ByteLength(name) <= 4096
    && forall i | 0 <= i < |name| :: name[i] > ' ' && name[i] !in {';', ',', '='}
  }

  predicate ValidCookie(c: Cookie, host: string, https: bool) {
    && ValidName(c.name) && ByteLength(c.value) <= 1024 * 1024
    && c.path != "" && c.path[0] == '/' && ByteLength(c.path) <= 4096
    && c.sameSite in {"none", "lax", "strict"}
    && (c.secure ==> https) && (c.sameSite == "none" ==> c.secure)
    && (c.domain.Some? ==> ValidDomain(c.domain.value, host))
  }

  predicate WithinLimits(e: StorageEntry) {
    ByteLength(e.key) <= 1024 * 1024 && ByteLength(e.value) <= 10 * 1024 * 1024
  }

  // ---- Sort keys ---------------------------------------------------------------------------

  function KeyOf(c: Cookie): CookieKey {
    (if c.domain.Some? then c.domain.value else "", c.path, c.name)
  }

  function StorageKey(e: StorageEntry): string {
    e.key
  }

  /** Two cookies are the same cookie when name, path and domain agree. */
  predicate SameCookie(a: Cookie, b: Cookie) {
    a.name == b.name && a.path == b.path && a.domain == b.domain
  }

  /** A valid cookie never has an empty domain, so the sort key tells cookies apart. */
  lemma KeyIdentifies(a: Cookie, b: Cookie, host: string, https: bool)
    requires ValidCookie(a, host, https) && ValidCookie(b, host, https)
    ensures KeyOf(a) == KeyOf(b) <==> SameCookie(a, b)
  {
  }

  // ---- The canonical form ------------------------------------------------------------------

  function Canonical(inventory: Inventory): Inventory {
    Inventory(Sort(inventory.cookies, KeyOf, KeyLe), Sort(inventory.storage, StorageKey, Le))
  }

  predicate NeighbourCookies(cookies: seq<Cookie>) {
    exists i | 0 <= i < |cookies| - 1 :: SameCookie(cookies[i], cookies[i + 1])
  }

  predicate NeighbourKeys(storage: seq<StorageEntry>) {
    exists i | 0 <= i < |storage| - 1 :: storage[i].key == storage[i + 1].key
  }

  predicate AllValid(cookies: seq<Cookie>, host: string, https: bool) {
    forall i | 0 <= i < |cookies| :: ValidCookie(cookies[i], host, https)
  }

  predicate AllWithinLimits(storage: seq<StorageEntry>) {
    forall i | 0 <= i < |storage| :: WithinLimits(storage[i])
  }

  /** The checks on a decoded inventory, in the order they are made. */
  function Check(inventory: Inventory, origin: Option<Origin>, requireNonempty: bool, codec: Codec):
    Result<Payload, PayloadError>
  {
    if |inventory.cookies| > MAX_COOKIES || |inventory.storage| > MAX_LOCAL_STORAGE_ENTRIES
      || (requireNonempty && inventory.cookies == [] && inventory.storage == []) then Err(LimitExceeded)
    else if origin == None || origin.value.host == None then Err(InvalidPayload)
    else if !AllValid(inventory.cookies, origin.value.host.value, origin.value.https) then Err(InvalidPayload)
    else
      var canonical := Canonical(inventory);
      if NeighbourCookies(canonical.cookies) then Err(InvalidPayload)
      else if !AllWithinLimits(inventory.storage) then Err(LimitExceeded)
      else if NeighbourKeys(canonical.storage) then Err(InvalidPayload)
      else
        var bytes := codec.encode(canonical);
        if |bytes| > MAX_PLAINTEXT_BYTES then Err(LimitExceeded)
        else Ok(Payload(bytes, codec.digest(bytes), |canonical.cookies|, |canonical.storage|))
  }

  function CanonicalPayload(bytes: Bytes, origin: Option<Origin>, requireNonempty: bool, codec: Codec):
    Result<Payload, PayloadError>
  {
    if bytes == [] || |bytes| > MAX_PLAINTEXT_BYTES then Err(LimitExceeded)
    else if codec.decode(bytes) == None then Err(InvalidPayload)
    else Check(codec.decode(bytes).value, origin, requireNonempty, codec)
  }

  method ValidateCookies(cookies: seq<Cookie>, host: string, https: bool) returns (valid: bool)
    ensures valid <==> AllValid(cookies, host, https)
  {
    for i := 0 to |cookies|
      invariant forall k | 0 <= k < i :: ValidCookie(cookies[k], host, https)
    {
      if !ValidCookie(cookies[i], host, https) {
        return false;
      }
    }
    return true;
  }

  method FindNeighbourCookies(cookies: seq<Cookie>) returns (found: bool)
    ensures found <==> NeighbourCookies(cookies)
  {
    var i := 0;
    while i + 1 < |cookies|
      invariant forall k | 0 <= k < i && k < |cookies| - 1 :: !SameCookie(cookies[k], cookies[k + 1])
    {
      if SameCookie(cookies[i], cookies[i + 1]) {
        return true;
      }
      i := i + 1;
    }
    return false;
  }

  method ValidateStorage(storage: seq<StorageEntry>) returns (valid: bool)
    ensures valid <==> AllWithinLimits(storage)
  {
    for i := 0 to |storage|
      invariant forall k | 0 <= k < i :: WithinLimits(storage[k])
    {
      if !WithinLimits(storage[i]) {
        return false;
      }
    }
    return true;
  }

  method FindNeighbourKeys(storage: seq<StorageEntry>) returns (found: bool)
    ensures found <==> NeighbourKeys(storage)
  {
    var i := 0;
    while i + 1 < |storage|
      invariant forall k | 0 <= k < i && k < |storage| - 1 :: storage[k].key != storage[k + 1].key
    {
      if storage[i].key == storage[i + 1].key {
        return true;
      }
      i := i + 1;
    }
    return false;
  }

  method Canonicalize(bytes: Bytes, origin: Option<Origin>, requireNonempty: bool, codec: Codec)
    returns (r: Result<Payload, PayloadError>)
    ensures r == CanonicalPayload(bytes, origin, requireNonempty, codec)
  {
    if bytes == [] || |bytes| > MAX_PLAINTEXT_BYTES {
      return Err(LimitExceeded);
    }
    var decoded := codec.decode(bytes);
    if decoded == None {
      return Err(InvalidPayload);
    }
    var strict := decoded.value;
    if |strict.cookies| > MAX_COOKIES || |strict.storage| > MAX_LOCAL_STORAGE_ENTRIES
      || (requireNonempty && strict.cookies == [] && strict.storage == []) {
      return Err(LimitExceeded);
    }
    if origin == None || origin.value.host == None {
      return Err(InvalidPayload);
    }
    var valid := ValidateCookies(strict.cookies, origin.value.host.value, origin.value.https);
    if !valid {
      return Err(InvalidPayload);
    }
    var cookies := Sort(strict.cookies, KeyOf, KeyLe);
    var repeated := FindNeighbourCookies(cookies);
    if repeated {
      return Err(InvalidPayload);
    }
    valid := ValidateStorage(strict.storage);
    if !valid {
      return Err(LimitExceeded);
    }
    var storage := Sort(strict.storage, StorageKey, Le);
    repeated := FindNeighbourKeys(storage);
    if repeated {
      return Err(InvalidPayload);
    }
    var encoded := codec.encode(Inventory(cookies, storage));
    if |encoded| > MAX_PLAINTEXT_BYTES {
      return Err(LimitExceeded);
    }
    return Ok(Payload(encoded, codec.digest(encoded), |cookies|, |storage|));
  }

  // ---- What acceptance means ---------------------------------------------------------------

  /** No cookie appears twice, nor a storage key, wherever in the lists. */
  ghost predicate NoDuplicates(inventory: Inventory) {
    && (forall i, j | 0 <= i < j < |inventory.cookies| :: !SameCookie(inventory.cookies[i], inventory.cookies[j]))
    && (forall i, j | 0 <= i < j < |inventory.storage| :: inventory.storage[i].key != inventory.storage[j].key)
  }

  ghost predicate Acceptable(inventory: Inventory, origin: Option<Origin>, requireNonempty: bool, codec: Codec) {
    && |inventory.cookies| <= MAX_COOKIES && |inventory.storage| <= MAX_LOCAL_STORAGE_ENTRIES
    && (requireNonempty ==> inventory.cookies != [] || inventory.storage != [])
    && origin.Some? && origin.value.host.Some?
    && AllValid(inventory.cookies, origin.value.host.value, origin.value.https)
    && AllWithinLimits(inventory.storage)
    && NoDuplicates(inventory)
    && |codec.encode(Canonical(inventory))| <= MAX_PLAINTEXT_BYTES
  }

  lemma CanonicalElements(inventory: Inventory)
    ensures var c := Canonical(inventory);
      && multiset(c.cookies) == multiset(inventory.cookies) && multiset(c.storage) == multiset(inventory.storage)
      && InOrder(c.cookies, KeyOf, KeyLe) && InOrder(c.storage, StorageKey, Le)
  {
    KeyLeIsTotalOrder();
    LeIsTotalOrder();
    SortSorts(inventory.cookies, KeyOf, KeyLe);
    SortSorts(inventory.storage, StorageKey, Le);
  }

  lemma ValidByElements(a: seq<Cookie>, b: seq<Cookie>, host: string, https: bool)
    requires multiset(a) == multiset(b) && AllValid(a, host, https)
    ensures AllValid(b, host, https)
  {
    forall i | 0 <= i < |b| ensures ValidCookie(b[i], host, https) {
      assert b[i] in multiset(a);
      var j :| 0 <= j < |a| && a[j] == b[i];
    }
  }

  lemma DistinctIffNeighboursDiffer<T(!new), K(!new)>(s: seq<T>, t: seq<T>, key: T -> K, le: (K, K) -> bool)
    requires TotalOrder(le) && InOrder(t, key, le) && multiset(s) == multiset(t)
    ensures DistinctKeys(s, key) <==> forall i | 0 <= i < |t| - 1 :: key(t[i]) != key(t[i + 1])
  {
    DistinctByElements(s, key);
    DistinctByElements(t, key);
    NeighboursTell(t, key, le);
  }

  /** The neighbour test on the sorted cookies finds a duplicate anywhere in the input, and nothing else. */
  lemma CookieNeighboursTell(cookies: seq<Cookie>, host: string, https: bool)
    requires AllValid(cookies, host, https)
    ensures NeighbourCookies(Sort(cookies, KeyOf, KeyLe)) <==>
      exists i, j :: 0 <= i < j < |cookies| && SameCookie(cookies[i], cookies[j])
  {
    KeyLeIsTotalOrder();
    SortSorts(cookies, KeyOf, KeyLe);
    var sorted := Sort(cookies, KeyOf, KeyLe);
    ValidByElements(cookies, sorted, host, https);
    DistinctIffNeighboursDiffer(cookies, sorted, KeyOf, KeyLe);
    forall i, j | 0 <= i < j < |cookies|
      ensures KeyOf(cookies[i]) == KeyOf(cookies[j]) <==> SameCookie(cookies[i], cookies[j])
    {
      KeyIdentifies(cookies[i], cookies[j], host, https);
    }
    forall i | 0 <= i < |sorted| - 1
      ensures KeyOf(sorted[i]) == KeyOf(sorted[i + 1]) <==> SameCookie(sorted[i], sorted[i + 1])
    {
      KeyIdentifies(sorted[i], sorted[i + 1], host, https);
    }
  }

  lemma StorageNeighboursTell(storage: seq<StorageEntry>)
    ensures NeighbourKeys(Sort(storage, StorageKey, Le)) <==>
      exists i, j :: 0 <= i < j < |storage| && storage[i].key == storage[j].key
  {
    LeIsTotalOrder();
    SortSorts(storage, StorageKey, Le);
    var sorted := Sort(storage, StorageKey, Le);
    DistinctIffNeighboursDiffer(storage, sorted, StorageKey, Le);
    forall i, j | 0 <= i < j < |storage|
      ensures StorageKey(storage[i]) == StorageKey(storage[j]) <==> storage[i].key == storage[j].key {}
    forall i | 0 <= i < |sorted| - 1
      ensures StorageKey(sorted[i]) == StorageKey(sorted[i + 1]) <==> sorted[i].key == sorted[i + 1].key {}
  }

  /** Main result: exactly the acceptable inventories are accepted. */
  lemma AcceptedIffAcceptable(inventory: Inventory, origin: Option<Origin>, requireNonempty: bool, codec: Codec)
    ensures Check(inventory, origin, requireNonempty, codec).Ok? <==>
      Acceptable(inventory, origin, requireNonempty, codec)
  {
    if origin.Some? && origin.value.host.Some? &&
      AllValid(inventory.cookies, origin.value.host.value, origin.value.https) {
      CookieNeighboursTell(inventory.cookies, origin.value.host.value, origin.value.https);
      StorageNeighboursTell(inventory.storage);
    }
  }

  ghost predicate SameElements(a: Inventory, b: Inventory) {
    multiset(a.cookies) == multiset(b.cookies) && multiset(a.storage) == multiset(b.storage)
  }

  lemma ValidIffValid(a: seq<Cookie>, b: seq<Cookie>, host: string, https: bool)
    requires multiset(a) == multiset(b)
    ensures AllValid(a, host, https) <==> AllValid(b, host, https)
  {
    if AllValid(a, host, https) { ValidByElements(a, b, host, https); }
    if AllValid(b, host, https) { ValidByElements(b, a, host, https); }
  }

  lemma LimitsByElements(a: seq<StorageEntry>, b: seq<StorageEntry>)
    requires multiset(a) == multiset(b) && AllWithinLimits(a)
    ensures AllWithinLimits(b)
  {
    forall i | 0 <= i < |b| ensures WithinLimits(b[i]) {
      assert b[i] in multiset(a);
      var j :| 0 <= j < |a| && a[j] == b[i];
    }
  }

  lemma LimitsIffLimits(a: seq<StorageEntry>, b: seq<StorageEntry>)
    requires multiset(a) == multiset(b)
    ensures AllWithinLimits(a) <==> AllWithinLimits(b)
  {
    if AllWithinLimits(a) { LimitsByElements(a, b); }
    if AllWithinLimits(b) { LimitsByElements(b, a); }
  }

  /** Sorting forgets the input's order as soon as no two cookies are the same. */
  lemma CookiesSortAlike(a: seq<Cookie>, b: seq<Cookie>, host: string, https: bool)
    requires multiset(a) == multiset(b) && AllValid(a, host, https) && AllValid(b, host, https)
    ensures NeighbourCookies(Sort(a, KeyOf, KeyLe)) <==> NeighbourCookies(Sort(b, KeyOf, KeyLe))
    ensures !NeighbourCookies(Sort(a, KeyOf, KeyLe)) ==> Sort(a, KeyOf, KeyLe) == Sort(b, KeyOf, KeyLe)
  {
    KeyLeIsTotalOrder();
    CookiesDistinct(a, host, https);
    CookiesDistinct(b, host, https);
    DistinctByElements(a, KeyOf);
    DistinctByElements(b, KeyOf);
    SortSorts(a, KeyOf, KeyLe);
    SortSorts(b, KeyOf, KeyLe);
    if DistinctKeys(a, KeyOf) {
      DistinctByElements(Sort(a, KeyOf, KeyLe), KeyOf);
      SortedIsUnique(Sort(a, KeyOf, KeyLe), Sort(b, KeyOf, KeyLe), KeyOf, KeyLe);
    }
  }

  lemma CookiesDistinct(cookies: seq<Cookie>, host: string, https: bool)
    requires AllValid(cookies, host, https)
    ensures NeighbourCookies(Sort(cookies, KeyOf, KeyLe)) <==> !DistinctKeys(cookies, KeyOf)
  {
    CookieNeighboursTell(cookies, host, https);
    forall i, j | 0 <= i < j < |cookies|
      ensures KeyOf(cookies[i]) == KeyOf(cookies[j]) <==> SameCookie(cookies[i], cookies[j])
    {
      KeyIdentifies(cookies[i], cookies[j], host, https);
    }
  }

  lemma StorageDistinct(storage: seq<StorageEntry>)
    ensures NeighbourKeys(Sort(storage, StorageKey, Le)) <==> !DistinctKeys(storage, StorageKey)
  {
    StorageNeighboursTell(storage);
    forall i, j | 0 <= i < j < |storage|
      ensures StorageKey(storage[i]) == StorageKey(storage[j]) <==> storage[i].key == storage[j].key {}
  }

  lemma StorageSortsAlike(a: seq<StorageEntry>, b: seq<StorageEntry>)
    requires multiset(a) == multiset(b)
    ensures NeighbourKeys(Sort(a, StorageKey, Le)) <==> NeighbourKeys(Sort(b, StorageKey, Le))
    ensures !NeighbourKeys(Sort(a, StorageKey, Le)) ==> Sort(a, StorageKey, Le) == Sort(b, StorageKey, Le)
  {
    LeIsTotalOrder();
    StorageDistinct(a);
    StorageDistinct(b);
    DistinctByElements(a, StorageKey);
    DistinctByElements(b, StorageKey);
    SortSorts(a, StorageKey, Le);
    SortSorts(b, StorageKey, Le);
    if DistinctKeys(a, StorageKey) {
      DistinctByElements(Sort(a, StorageKey, Le), StorageKey);
      SortedIsUnique(Sort(a, StorageKey, Le), Sort(b, StorageKey, Le), StorageKey, Le);
    }
  }

  /** Main result: the verdict, the error and the bytes depend on the elements alone, not on their order. */
  lemma OrderDoesNotMatter(a: Inventory, b: Inventory, origin: Option<Origin>, requireNonempty: bool, codec: Codec)
    requires SameElements(a, b)
    ensures Check(a, origin, requireNonempty, codec) == Check(b, origin, requireNonempty, codec)
  {
    SameLength(a.cookies, b.cookies);
    SameLength(a.storage, b.storage);
    if origin.Some? && origin.value.host.Some? {
      ValidIffValid(a.cookies, b.cookies, origin.value.host.value, origin.value.https);
      if AllValid(a.cookies, origin.value.host.value, origin.value.https) {
        CookiesSortAlike(a.cookies, b.cookies, origin.value.host.value, origin.value.https);
        LimitsIffLimits(a.storage, b.storage);
        StorageSortsAlike(a.storage, b.storage);
      }
    }
  }

  /** The writer writes something and the reader reads back exactly what was written. */
  ghost predicate Exact(codec: Codec) {
    forall i :: codec.encode(i) != [] && codec.decode(codec.encode(i)) == Some(i)
  }

  /** Canonical bytes are accepted again, unchanged. */
  lemma CanonicalIsIdempotent(bytes: Bytes, origin: Option<Origin>, requireNonempty: bool, codec: Codec)
    requires Exact(codec) && CanonicalPayload(bytes, origin, requireNonempty, codec).Ok?
    ensures var payload := CanonicalPayload(bytes, origin, requireNonempty, codec);
      CanonicalPayload(payload.value.bytes, origin, requireNonempty, codec) == payload
  {
    var inventory := codec.decode(bytes).value;
    CanonicalElements(inventory);
    OrderDoesNotMatter(inventory, Canonical(inventory), origin, requireNonempty, codec);
    assert codec.decode(codec.encode(Canonical(inventory))) == Some(Canonical(inventory));
  }

  /** Accepted inventories have the same bytes exactly when they hold the same cookies and entries. */
  lemma SameBytesIffSameElements(
    a: Inventory, b: Inventory, origin: Option<Origin>, requireNonempty: bool, codec: Codec)
    requires Exact(codec)
    requires Check(a, origin, requireNonempty, codec).Ok? && Check(b, origin, requireNonempty, codec).Ok?
    ensures Check(a, origin, requireNonempty, codec).value.bytes == Check(b, origin, requireNonempty, codec).value.bytes
      <==> SameElements(a, b)
  {
    CanonicalElements(a);
    CanonicalElements(b);
    assert codec.decode(codec.encode(Canonical(a))) == Some(Canonical(a));
    assert codec.decode(codec.encode(Canonical(b))) == Some(Canonical(b));
    if SameElements(a, b) {
      OrderDoesNotMatter(a, b, origin, requireNonempty, codec);
    }
  }

  /** Nothing is lost or added: the counts are the input's and the bytes decode to the same elements. */
  lemma NothingIsLost(inventory: Inventory, origin: Option<Origin>, requireNonempty: bool, codec: Codec)
    requires Exact(codec) && Check(inventory, origin, requireNonempty, codec).Ok?
    ensures var payload := Check(inventory, origin, requireNonempty, codec).value;
      && payload.inventorySha256 == codec.digest(payload.bytes)
      && payload.cookieCount == |inventory.cookies| && payload.storageCount == |inventory.storage|
      && codec.decode(payload.bytes).Some? && SameElements(codec.decode(payload.bytes).value, inventory)
  {
    CanonicalElements(inventory);
    SameLength(Canonical(inventory).cookies, inventory.cookies);
    SameLength(Canonical(inventory).storage, inventory.storage);
    assert codec.decode(codec.encode(Canonical(inventory))) == Some(Canonical(inventory));
  }
}
