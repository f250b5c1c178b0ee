/** The byte messages the audit chain authenticates, and why no two of them can be confused. */
module AuditEncoding {
  import opened Wrappers
  import opened Bytes

  /** A MAC output: 32 bytes. */
  type Hash = h: Bytes | |h| == 32 witness seq(32, _ => 0)
  /** The UTF-8 bytes of a column; its length fits the 8-byte prefix. */
  type Text = s: Bytes | |s| < U64_RANGE

  /** HMAC-SHA256 under the audit key, as a function of the whole message. */
  type Mac = Bytes -> Hash

  const GENESIS_PREV_HASH: Hash :=
    [0, 0, 0, 0, 0, 0, 0, 0, 0, 0, 0, 0, 0, 0, 0, 0, 0, 0, 0, 0, 0, 0, 0, 0, 0, 0, 0, 0, 0, 0, 0, 0]

  /** "octo/audit-row/v1" */
  const ROW_DOMAIN: Bytes :=
    [111, 99, 116, 111, 47, 97, 117, 100, 105, 116, 45, 114, 111, 119, 47, 118, 49]
  /** "octo/audit-head/v1" */
  const HEAD_DOMAIN: Bytes :=
    [111, 99, 116, 111, 47, 97, 117, 100, 105, 116, 45, 104, 101, 97, 100, 47, 118, 49]

  datatype LinkFields = LinkFields(
    id: Uuid, userId: Uuid, seqNo: I64, action: Text, category: Text,
    target: Option<Text>, ipAddress: Option<Text>, createdAt: I64)

  function PutStr(s: Text): Bytes {
    U64Bytes(|s|) + s
  }

  function PutOpt(s: Option<Text>): Bytes {
    match s
    case None => [0] + []
    case Some(text) => [1] + PutStr(text)
  }

  function RowMessage(prev: Hash, f: LinkFields): Bytes {
    ROW_DOMAIN + (prev + (UuidBytes(f.id) + (UuidBytes(f.userId) + (I64Bytes(f.seqNo)
    + (I64Bytes(f.createdAt) + (PutStr(f.action) + (PutStr(f.category)
    + (PutOpt(f.target) + PutOpt(f.ipAddress)))))))))
  }

  function HeadMessage(userId: Uuid, seqNo: I64, rowHash: Hash): Bytes {
    HEAD_DOMAIN + (UuidBytes(userId) + (I64Bytes(seqNo) + rowHash))
  }

  function RowHash(mac: Mac, prev: Hash, f: LinkFields): Hash {
    mac(RowMessage(prev, f))
  }

  function HeadMac(mac: Mac, userId: Uuid, seqNo: I64, rowHash: Hash): Hash {
    mac(HeadMessage(userId, seqNo, rowHash))
  }

  /** The two keyed hashes the chain uses, whatever the messages beneath them look like. */
  datatype Macs = Macs(row: (Hash, LinkFields) -> Hash, head: (Uuid, I64, Hash) -> Hash)

  function Keyed(mac: Mac): Macs {
    Macs((prev: Hash, f: LinkFields) => RowHash(mac, prev, f),
         (userId: Uuid, seqNo: I64, h: Hash) => HeadMac(mac, userId, seqNo, h))
  }

  /** Where a part of a message stands. */
  lemma Cut(m: Bytes, at: nat, first: Bytes, rest: Bytes)
    requires at <= |m| && m[at..] == first + rest
    ensures at + |first| <= |m| && m[at..at + |first|] == first && m[at + |first|..] == rest
  {
    assert m[at..][..|first|] == m[at..at + |first|] && m[at..][|first|..] == m[at + |first|..];
  }

  /** Reading a text column back: eight bytes of length, then the text; a tag says whether it is there. */
  lemma TextLayout(text: Text)
    ensures var m := PutStr(text); |m| >= 8 && FromBigEndian(m[..8]) == |m| - 8 && m[8..] == text
    ensures PutOpt(None) == [0] && PutOpt(Some(text)) == [1] + PutStr(text)
  {
    FixedWidthRoundTrip(|text|, 0, 0);
    Cut(PutStr(text), 0, U64Bytes(|text|), text);
  }

  /** Reading a row message back by position: domain, previous hash, row, user, sequence number, time, texts. */
  lemma RowLayout(prev: Hash, f: LinkFields)
    ensures var m := RowMessage(prev, f);
      && |m| >= 97 && m[..17] == Ascii("octo/audit-row/v1") && m[17..49] == prev
      && FromBigEndian(m[49..65]) == f.id && FromBigEndian(m[65..81]) == f.userId
      && FromTwosComplement(m[81..89]) == f.seqNo && FromTwosComplement(m[89..97]) == f.createdAt
      && m[97..] == PutStr(f.action) + (PutStr(f.category) + (PutOpt(f.target) + PutOpt(f.ipAddress)))
  {
    var text := PutStr(f.action) + (PutStr(f.category) + (PutOpt(f.target) + PutOpt(f.ipAddress)));
    RowParts(RowMessage(prev, f), ROW_DOMAIN, prev, UuidBytes(f.id), UuidBytes(f.userId),
             I64Bytes(f.seqNo), I64Bytes(f.createdAt), text);
    DomainText();
    FixedWidthRoundTrip(0, f.seqNo, f.id);
    FixedWidthRoundTrip(0, f.createdAt, f.userId);
  }

  lemma RowParts(
    m: Bytes, domain: Bytes, prev: Bytes, id: Bytes, user: Bytes, number: Bytes, time: Bytes, text: Bytes)
    requires m == domain + (prev + (id + (user + (number + (time + text)))))
    requires |domain| == 17 && |prev| == 32 && |id| == 16 && |user| == 16 && |number| == 8 && |time| == 8
    ensures |m| >= 97 && m[..17] == domain && m[17..49] == prev && m[49..65] == id && m[65..81] == user
    ensures m[81..89] == number && m[89..97] == time && m[97..] == text
  {
    Cut(m, 0, domain, prev + (id + (user + (number + (time + text)))));
    Cut(m, 17, prev, id + (user + (number + (time + text))));
    Cut(m, 49, id, user + (number + (time + text)));
    Cut(m, 65, user, number + (time + text));
    Cut(m, 81, number, time + text);
    Cut(m, 89, time, text);
  }

  lemma DomainText()
    ensures ROW_DOMAIN == Ascii("octo/audit-row/v1") && HEAD_DOMAIN == Ascii("octo/audit-head/v1")
  {
  }

  lemma HeadLayout(userId: Uuid, seqNo: I64, rowHash: Hash)
    ensures var m := HeadMessage(userId, seqNo, rowHash);
      && |m| == 74 && m[..18] == Ascii("octo/audit-head/v1") && FromBigEndian(m[18..34]) == userId
      && FromTwosComplement(m[34..42]) == seqNo && m[42..] == rowHash
  {
    var m := HeadMessage(userId, seqNo, rowHash);
    DomainText();
    Cut(m, 0, HEAD_DOMAIN, UuidBytes(userId) + (I64Bytes(seqNo) + rowHash));
    Cut(m, 18, UuidBytes(userId), I64Bytes(seqNo) + rowHash);
    Cut(m, 34, I64Bytes(seqNo), rowHash);
    FixedWidthRoundTrip(0, seqNo, userId);
  }

  /** The keyed hashes are the MACs of those messages. */
  lemma KeyedIs(mac: Mac, prev: Hash, f: LinkFields, userId: Uuid, seqNo: I64, rowHash: Hash)
    ensures Keyed(mac).row(prev, f) == mac(RowMessage(prev, f))
    ensures Keyed(mac).head(userId, seqNo, rowHash) == mac(HeadMessage(userId, seqNo, rowHash))
  {
  }

  /** A length-prefixed string ends where it says, whatever follows it. */
  lemma PutStrSelfDelimiting(s: Text, x: Bytes, t: Text, y: Bytes)
    requires PutStr(s) + x == PutStr(t) + y
    ensures s == t && x == y
  {
    assert PutStr(s) + x == U64Bytes(|s|) + (s + x);
    assert PutStr(t) + y == U64Bytes(|t|) + (t + y);
    SplitEqual(U64Bytes(|s|), s + x, U64Bytes(|t|), t + y);
    U64BytesInjective(|s|, |t|);
    SplitEqual(s, x, t, y);
  }

  /** A tagged optional ends where it says, and `None` differs from `Some("")`. */
  lemma PutOptSelfDelimiting(s: Option<Text>, x: Bytes, t: Option<Text>, y: Bytes)
    requires PutOpt(s) + x == PutOpt(t) + y
    ensures s == t && x == y
  {
    var p := if s.None? then [] else PutStr(s.value);
    var q := if t.None? then [] else PutStr(t.value);
    TaggedEqual(if s.None? then 0 else 1, p, x, if t.None? then 0 else 1, q, y);
    if s.None? {
      assert [] + x == x && [] + y == y;
    } else {
      PutStrSelfDelimiting(s.value, x, t.value, y);
    }
  }

  /** The variable-length tail of a row message determines the four text columns. */
  lemma TextTailInjective(f: LinkFields, g: LinkFields)
    requires PutStr(f.action) + (PutStr(f.category) + (PutOpt(f.target) + PutOpt(f.ipAddress)))
          == PutStr(g.action) + (PutStr(g.category) + (PutOpt(g.target) + PutOpt(g.ipAddress)))
    ensures f.action == g.action && f.category == g.category
    ensures f.target == g.target && f.ipAddress == g.ipAddress
  {
    PutStrSelfDelimiting(f.action, PutStr(f.category) + (PutOpt(f.target) + PutOpt(f.ipAddress)),
                         g.action, PutStr(g.category) + (PutOpt(g.target) + PutOpt(g.ipAddress)));
    PutStrSelfDelimiting(f.category, PutOpt(f.target) + PutOpt(f.ipAddress),
                         g.category, PutOpt(g.target) + PutOpt(g.ipAddress));
    PutOptSelfDelimiting(f.target, PutOpt(f.ipAddress), g.target, PutOpt(g.ipAddress));
    assert PutOpt(f.ipAddress) + [] == PutOpt(g.ipAddress) + [];
    PutOptSelfDelimiting(f.ipAddress, [], g.ipAddress, []);
  }

  /** Row messages are injective: equal messages link to one hash and carry equal columns. */
  lemma RowMessageInjective(p: Hash, f: LinkFields, q: Hash, g: LinkFields)
    requires RowMessage(p, f) == RowMessage(q, g)
    ensures p == q && f == g
  {
    var ft := PutStr(f.action) + (PutStr(f.category) + (PutOpt(f.target) + PutOpt(f.ipAddress)));
    var gt := PutStr(g.action) + (PutStr(g.category) + (PutOpt(g.target) + PutOpt(g.ipAddress)));
    var f4, g4 := I64Bytes(f.createdAt) + ft, I64Bytes(g.createdAt) + gt;
    var f3, g3 := I64Bytes(f.seqNo) + f4, I64Bytes(g.seqNo) + g4;
    var f2, g2 := UuidBytes(f.userId) + f3, UuidBytes(g.userId) + g3;
    var f1, g1 := UuidBytes(f.id) + f2, UuidBytes(g.id) + g2;
    SplitEqual(ROW_DOMAIN, p + f1, ROW_DOMAIN, q + g1);
    SplitEqual(p, f1, q, g1);
    SplitEqual(UuidBytes(f.id), f2, UuidBytes(g.id), g2);
    SplitEqual(UuidBytes(f.userId), f3, UuidBytes(g.userId), g3);
    SplitEqual(I64Bytes(f.seqNo), f4, I64Bytes(g.seqNo), g4);
    SplitEqual(I64Bytes(f.createdAt), ft, I64Bytes(g.createdAt), gt);
    UuidBytesInjective(f.id, g.id);
    UuidBytesInjective(f.userId, g.userId);
    I64BytesInjective(f.seqNo, g.seqNo);
    I64BytesInjective(f.createdAt, g.createdAt);
    TextTailInjective(f, g);
  }

  lemma HeadMessageInjective(u: Uuid, m: I64, h: Hash, v: Uuid, n: I64, k: Hash)
    requires HeadMessage(u, m, h) == HeadMessage(v, n, k)
    ensures u == v && m == n && h == k
  {
    SplitEqual(HEAD_DOMAIN, UuidBytes(u) + (I64Bytes(m) + h), HEAD_DOMAIN, UuidBytes(v) + (I64Bytes(n) + k));
    SplitEqual(UuidBytes(u), I64Bytes(m) + h, UuidBytes(v), I64Bytes(n) + k);
    SplitEqual(I64Bytes(m), h, I64Bytes(n), k);
    UuidBytesInjective(u, v);
    I64BytesInjective(m, n);
  }

  /** Rows and heads are told apart by their first bytes: no message is both. */
  lemma DomainsDisjoint(p: Hash, f: LinkFields, userId: Uuid, seqNo: I64, h: Hash)
    ensures RowMessage(p, f) != HeadMessage(userId, seqNo, h)
  {
    assert RowMessage(p, f)[11] == ROW_DOMAIN[11];
    assert HeadMessage(userId, seqNo, h)[11] == HEAD_DOMAIN[11];
  }
}
