/** An accepted payload told by the fields of its cookies and entries: their rules and their order. */
module PayloadRules {
  import opened Outcomes
  import opened Text
  import opened StringOrder
  import opened CookieOrder
  import opened P = CanonicalPayload

  // ---- The order of an accepted payload ----------------------------------------------------

  /** `a` is a prefix of `b`, or has the lesser character where they first differ. */
  ghost predicate Precedes(a: string, b: string) {
    a <= b || exists k: nat :: LessAt(a, b, k)
  }

  function DomainText(c: Cookie): string {
    match c.domain case None => "" case Some(domain) => domain
  }

  /** By domain, then by path, then by name. */
  ghost predicate CookieOrdered(a: Cookie, b: Cookie) {
    && Precedes(DomainText(a), DomainText(b))
    && (DomainText(a) == DomainText(b) ==> Precedes(a.path, b.path))
    && (DomainText(a) == DomainText(b) && a.path == b.path ==> Precedes(a.name, b.name))
  }

  lemma KeysInOrder(a: Cookie, b: Cookie)
    requires KeyLe(KeyOf(a), KeyOf(b))
    ensures CookieOrdered(a, b)
  {
    LeIff(DomainText(a), DomainText(b));
    LeIff(a.path, b.path);
    LeIff(a.name, b.name);
    LeReflexive(DomainText(a));
  }

  ghost predicate InventoryOrdered(inventory: Inventory) {
    && (forall i, j | 0 <= i < j < |inventory.cookies| :: CookieOrdered(inventory.cookies[i], inventory.cookies[j]))
    && (forall i, j | 0 <= i < j < |inventory.storage| ::
          Precedes(inventory.storage[i].key, inventory.storage[j].key))
  }

  lemma CanonicalIsOrdered(inventory: Inventory)
    ensures InventoryOrdered(Canonical(inventory))
  {
    var canonical := Canonical(inventory);
    CanonicalElements(inventory);
    forall i, j | 0 <= i < j < |canonical.cookies| ensures CookieOrdered(canonical.cookies[i], canonical.cookies[j]) {
      KeysInOrder(canonical.cookies[i], canonical.cookies[j]);
    }
    forall i, j | 0 <= i < j < |canonical.storage|
      ensures Precedes(canonical.storage[i].key, canonical.storage[j].key)
    {
      assert Le(StorageKey(canonical.storage[i]), StorageKey(canonical.storage[j]));
      LeIff(canonical.storage[i].key, canonical.storage[j].key);
    }
  }

  /** The bytes of an accepted payload are those of the canonical inventory. */
  lemma AcceptedIsEncoded(bytes: Bytes, origin: Option<Origin>, requireNonempty: bool, codec: Codec)
    requires P.CanonicalPayload(bytes, origin, requireNonempty, codec).Ok?
    ensures codec.decode(bytes).Some?
    ensures P.CanonicalPayload(bytes, origin, requireNonempty, codec).value.bytes ==
      codec.encode(Canonical(codec.decode(bytes).value))
  {
  }

  /** Main result: what an accepted payload's bytes decode to is in this order. */
  lemma AcceptedIsOrdered(bytes: Bytes, origin: Option<Origin>, requireNonempty: bool, codec: Codec)
    requires Exact(codec) && P.CanonicalPayload(bytes, origin, requireNonempty, codec).Ok?
    ensures var decoded := codec.decode(P.CanonicalPayload(bytes, origin, requireNonempty, codec).value.bytes);
      decoded.Some? && InventoryOrdered(decoded.value)
  {
    AcceptedIsEncoded(bytes, origin, requireNonempty, codec);
    CanonicalIsOrdered(codec.decode(bytes).value);
  }

  // ---- The rules for one cookie ------------------------------------------------------------

  /** The host is this domain or lies below it, letter case and one leading dot aside. */
  ghost predicate Covers(domain: string, host: string) {
    var bare := if domain != "" && domain[0] == '.' then domain[1..] else domain;
    && bare != "" && (forall c | c in bare :: c != '/' && c != ':' && c != '\0')
    && (Lowered(bare) == Lowered(host) || exists below: string :: Lowered(host) == below + "." + Lowered(bare))
  }

  lemma EndsIff(s: string, end: string)
    ensures EndsWith(s, end) <==> exists front: string :: s == front + end
  {
    if EndsWith(s, end) { assert s == s[..|s| - |end|] + end; }
    if front: string :| s == front + end { assert |s| - |end| == |front|; }
  }

  lemma CoversIff(domain: string, host: string)
    ensures ValidDomain(domain, host) <==> Covers(domain, host)
  {
    var bare := WithoutLeadingDot(domain);
    EndsIff(Lowered(host), "." + Lowered(bare));
    if below: string :| Lowered(host) == below + "." + Lowered(bare) {
      assert Lowered(host) == below + ("." + Lowered(bare));
    }
    if below: string :| Lowered(host) == below + ("." + Lowered(bare)) {
      assert Lowered(host) == below + "." + Lowered(bare);
    }
  }

  /** A name of printable characters without separators, at most 4096 bytes of it. */
  predicate NameText(name: string) {
    0 < ByteLength(name) <= 4096 && forall c | c in name :: c as int > 0x20 && c != ';' && c != ',' && c != '='
  }

  lemma NameIsText(name: string)
    ensures ValidName(name) <==> NameText(name)
  {
    forall i | 0 <= i < |name| ensures name[i] in name {}
  }

  /**
   * Main result: the rules a cookie is accepted by. Secure cookies come from https alone, cookies
   * without a same-site rule are secure, and a domain covers the host.
   */
  lemma CookieAcceptedIff(c: Cookie, host: string, https: bool)
    ensures ValidCookie(c, host, https) <==>
      && NameText(c.name) && ByteLength(c.value) <= 0x10_0000
      && "/" <= c.path && ByteLength(c.path) <= 4096
      && (c.sameSite == "none" || c.sameSite == "lax" || c.sameSite == "strict")
      && !(c.secure && !https) && !(c.sameSite == "none" && !c.secure)
      && match c.domain case None => true case Some(domain) => Covers(domain, host)
  {
    NameIsText(c.name);
    if c.domain.Some? { CoversIff(c.domain.value, host); }
  }

  /** Which error an inventory is refused with: sizes first, then the origin and the cookies, then the entries. */
  lemma RefusalsInOrder(inventory: Inventory, origin: Option<Origin>, requireNonempty: bool, codec: Codec)
    ensures var r := Check(inventory, origin, requireNonempty, codec);
      if |inventory.cookies| > 20_000 || |inventory.storage| > 10_000
        || (requireNonempty && |inventory.cookies| + |inventory.storage| == 0)
      then r == Err(LimitExceeded)
      else if !(exists o, host :: origin == Some(o) && o.host == Some(host)
                  && forall c | c in inventory.cookies :: ValidCookie(c, host, o.https))
      then r == Err(InvalidPayload)
      else if exists i, j :: 0 <= i < j < |inventory.cookies| && SameCookie(inventory.cookies[i], inventory.cookies[j])
      then r == Err(InvalidPayload)
      else if exists e :: e in inventory.storage && (ByteLength(e.key) > 0x10_0000 || ByteLength(e.value) > 0xA0_0000)
      then r == Err(LimitExceeded)
      else if exists i, j :: 0 <= i < j < |inventory.storage| && inventory.storage[i].key == inventory.storage[j].key
      then r == Err(InvalidPayload)
      else r.Ok? || (r == Err(LimitExceeded) && |codec.encode(Canonical(inventory))| > 0x400_0000)
  {
    if origin.Some? && origin.value.host.Some? {
      var host, https := origin.value.host.value, origin.value.https;
      AllValidIff(inventory.cookies, host, https);
      if AllValid(inventory.cookies, host, https) {
        CookieNeighboursTell(inventory.cookies, host, https);
        StorageNeighboursTell(inventory.storage);
        LimitsIff(inventory.storage);
      }
    }
  }

  /** Bytes that are no inventory, or too many, never get that far. */
  lemma UnreadableRefused(bytes: Bytes, origin: Option<Origin>, requireNonempty: bool, codec: Codec)
    ensures var r := P.CanonicalPayload(bytes, origin, requireNonempty, codec);
      if |bytes| == 0 || |bytes| > 0x400_0000 then r == Err(LimitExceeded)
      else match codec.decode(bytes)
        case None => r == Err(InvalidPayload)
        case Some(inventory) => r == Check(inventory, origin, requireNonempty, codec)
  {
  }

  lemma AllValidIff(cookies: seq<Cookie>, host: string, https: bool)
    ensures AllValid(cookies, host, https) <==> forall c | c in cookies :: ValidCookie(c, host, https)
  {
    forall i | 0 <= i < |cookies| ensures cookies[i] in cookies {}
  }

  lemma LimitsIff(storage: seq<StorageEntry>)
    ensures !AllWithinLimits(storage) <==>
      exists e :: e in storage && (ByteLength(e.key) > 0x10_0000 || ByteLength(e.value) > 0xA0_0000)
  {
    forall i | 0 <= i < |storage| ensures storage[i] in storage {}
  }
}
