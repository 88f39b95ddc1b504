/** The ssh-agent backend's codec: strings of section 5 of RFC 4251, ed25519 keys of section 4 and signatures of
    section 6 of RFC 8709, and the choice among the identities an agent lists. */
module SshAgent {
  import opened Types

  const IDENTITIES_ANSWER: byte := 12
  const SIGN_REQUEST: byte := 13
  const SIGN_RESPONSE: byte := 14
  const ED25519_KEY_TYPE: Bytes := Ascii("ssh-ed25519")

  /** The message numbers of the agent protocol, and the key type byte for byte. */
  lemma AgentLiterals()
    ensures IDENTITIES_ANSWER == 12 && SIGN_REQUEST == 13 && SIGN_RESPONSE == 14
    ensures ED25519_KEY_TYPE == [115, 115, 104, 45, 101, 100, 50, 53, 53, 49, 57]
  {
    hide Ascii;
  }

  // ---------------------------------------------------------------------------
  // Strings
  // ---------------------------------------------------------------------------

  /** `put_string` appends this; the length is truncated to 32 bits. */
  function SshString(s: Bytes): (b: Bytes)
    ensures |b| == 4 + |s|
  {
    BigEndian(|s| % U32_LIMIT, 4) + s
  }

  /** A field read at a position: the field and the position after it. */
  datatype Field = Field(bytes: Bytes, next: nat)

  function TakeAt(buf: Bytes, pos: nat, n: nat): Result<Field> {
    if pos + n <= |buf| then Ok(Field(buf[pos..pos + n], pos + n)) else Err(Signer)
  }

  function StringAt(buf: Bytes, pos: nat): (r: Result<Field>)
    ensures r.Ok? ==> pos + 4 <= r.value.next <= |buf| && |r.value.bytes| == r.value.next - pos - 4
    ensures r.Err? ==> r.error == Signer
  {
    match TakeAt(buf, pos, 4)
    case Err(e) => Err(e)
    case Ok(len) => TakeAt(buf, len.next, FromBigEndian(len.bytes))
  }

  lemma FieldAt(before: Bytes, field: Bytes, after: Bytes)
    ensures var buf := before + field + after;
            |buf| == |before| + |field| + |after| && buf[|before|..|before| + |field|] == field
  {
  }

  /** A string is read back, wherever it stands and whatever follows, exactly when its length fits 32 bits. */
  lemma StringRoundTrip(before: Bytes, s: Bytes, after: Bytes)
    ensures StringAt(before + SshString(s) + after, |before|) == Ok(Field(s, |before| + 4 + |s|))
            <==> |s| < U32_LIMIT
  {
    var len := BigEndian(|s| % U32_LIMIT, 4);
    Pow256Words();
    BigEndianRoundTrip(|s| % U32_LIMIT, 4);
    hide BigEndian, FromBigEndian;
    FieldAt(before, len, s + after);
    FieldAt(before + len, s, after);
    assert before + len + (s + after) == before + SshString(s) + after;
    assert before + len + s + after == before + SshString(s) + after;
  }

  /** A field is read exactly if a length-prefixed string stands there: on arbitrary bytes. */
  lemma StringExactly(buf: Bytes, pos: nat, s: Bytes, next: nat)
    ensures StringAt(buf, pos) == Ok(Field(s, next))
            <==> |s| < U32_LIMIT && next == pos + 4 + |s| && next <= |buf| && buf[pos..next] == SshString(s)
  {
    hide BigEndian, FromBigEndian;
    Pow256Words();
    BigEndianRoundTrip(|s| % U32_LIMIT, 4);
    if pos + 4 <= |buf| {
      BigEndianInverse(buf[pos..pos + 4]);
      if next <= |buf| && next == pos + 4 + |s| {
        assert buf[pos..next][..4] == buf[pos..pos + 4];
        assert buf[pos..next][4..] == buf[pos + 4..next];
        assert SshString(s)[..4] == BigEndian(|s| % U32_LIMIT, 4) && SshString(s)[4..] == s;
        assert buf[pos..next] == buf[pos..next][..4] + buf[pos..next][4..];
      }
    }
  }

  method PutString(buf: Bytes, s: Bytes) returns (r: Bytes)
    ensures r == buf + SshString(s)
  {
    r := buf + BigEndian(|s| % U32_LIMIT, 4);
    r := r + s;
    assert r == buf + SshString(s);
  }

  /** The cursor over a reply. */
  class Reader {
    const buf: Bytes
    var pos: nat

    ghost predicate Valid()
      reads this
    {
      pos <= |buf|
    }

    constructor (buf: Bytes)
      ensures Valid() && this.buf == buf && pos == 0
    {
      this.buf := buf;
      pos := 0;
    }

    /** The next `n` bytes, or a failure that leaves the cursor where it was. */
    method Take(n: nat) returns (r: Result<Bytes>)
      requires Valid()
      modifies this
      ensures Valid()
      ensures var t := TakeAt(buf, old(pos), n);
              if t.Ok? then r == Ok(t.value.bytes) && pos == t.value.next == old(pos) + n else r == Err(Signer) && pos == old(pos)
    {
      var end := pos + n;
      if end > |buf| {
        return Err(Signer);
      }
      r := Ok(buf[pos..end]);
      pos := end;
    }

    method U8() returns (r: Result<byte>)
      requires Valid()
      modifies this
      ensures Valid()
      ensures if old(pos) < |buf| then r == Ok(buf[old(pos)]) && pos == old(pos) + 1 else r == Err(Signer) && pos == old(pos)
    {
      var b := Take(1);
      if b.Err? {
        return Err(b.error);
      }
      r := Ok(b.value[0]);
    }

    method U32() returns (r: Result<nat>)
      requires Valid()
      modifies this
      ensures Valid()
      ensures if old(pos) + 4 <= |buf|
              then r == Ok(FromBigEndian(buf[old(pos)..old(pos) + 4])) && pos == old(pos) + 4
              else r == Err(Signer) && pos == old(pos)
    {
      var b := Take(4);
      if b.Err? {
        return Err(b.error);
      }
      r := Ok(FromBigEndian(b.value));
    }

    /** A length-prefixed field. If the length is there but the field is cut short, only the length is consumed. */
    method String() returns (r: Result<Bytes>)
      requires Valid()
      modifies this
      ensures Valid()
      ensures var s := StringAt(buf, old(pos));
              if s.Ok? then r == Ok(s.value.bytes) && pos == s.value.next
              else r == Err(Signer) && pos == (if old(pos) + 4 <= |buf| then old(pos) + 4 else old(pos))
    {
      var len := U32();
      if len.Err? {
        return Err(len.error);
      }
      r := Take(len.value);
    }
  }

  // ---------------------------------------------------------------------------
  // Keys
  // ---------------------------------------------------------------------------

  /** The raw ed25519 key of a key blob; what follows the two strings is ignored. */
  function Ed25519Key(blob: Bytes): Option<Bytes32> {
    match StringAt(blob, 0)
    case Err(_) => None
    case Ok(kind) =>
      if kind.bytes != ED25519_KEY_TYPE then None
      else match StringAt(blob, kind.next)
        case Err(_) => None
        case Ok(key) => if |key.bytes| == 32 then Some(key.bytes) else None
  }

  method ParseEd25519PublicKey(blob: Bytes) returns (r: Option<Bytes32>)
    ensures r == Ed25519Key(blob)
  {
    var reader := new Reader(blob);
    var kind := reader.String();
    if kind.Err? || kind.value != ED25519_KEY_TYPE {
      return None;
    }
    var key := reader.String();
    if key.Err? || |key.value| != 32 {
      return None;
    }
    r := Some(key.value);
  }

  /** A blob of two strings is an ed25519 key exactly when the first names the type and the second has 32 bytes. */
  lemma KeyBlobRoundTrip(kind: Bytes, key: Bytes, after: Bytes)
    requires |kind| < U32_LIMIT && |key| < U32_LIMIT
    ensures Ed25519Key(SshString(kind) + SshString(key) + after)
            == if kind == ED25519_KEY_TYPE && |key| == 32 then Some(key) else None
  {
    var blob := SshString(kind) + SshString(key) + after;
    assert blob == [] + SshString(kind) + (SshString(key) + after);
    StringRoundTrip([], kind, SshString(key) + after);
    StringRoundTrip(SshString(kind), key, after);
    hide SshString, StringAt;
  }

  /** A key blob, byte for byte: the key type and 32 bytes of key, each behind its length; anything may follow. */
  predicate KeyBlob(blob: Bytes, key: Bytes) {
    |key| == 32 && |blob| >= 51 && blob[..15] == SshString(ED25519_KEY_TYPE) && blob[15..51] == SshString(key)
  }

  /** On arbitrary bytes, a key is found exactly in its key blobs. */
  lemma KeyExactly(blob: Bytes, key: Bytes32)
    ensures Ed25519Key(blob) == Some(key) <==> KeyBlob(blob, key)
  {
    hide StringAt, SshString, Ascii;
    StringExactly(blob, 0, ED25519_KEY_TYPE, 15);
    StringExactly(blob, 15, key, 51);
    assert |blob| >= 15 ==> blob[0..15] == blob[..15];
  }

  // ---------------------------------------------------------------------------
  // Selecting an identity
  // ---------------------------------------------------------------------------

  datatype Identity = Identity(blob: Bytes, key: Bytes32)

  predicate Matches(blob: Bytes, want: Option<Bytes32>) {
    Ed25519Key(blob).Some? && (want.None? || want == Ed25519Key(blob))
  }

  /** What the loop over the next `n` entries finds. An entry cut short ends it; entries after a match are not read. */
  function SelectFrom(buf: Bytes, pos: nat, n: nat, want: Option<Bytes32>): Result<Identity>
    decreases n
  {
    if n == 0 then Err(Signer)
    else match StringAt(buf, pos)
      case Err(e) => Err(e)
      case Ok(blob) =>
        match StringAt(buf, blob.next)
        case Err(e) => Err(e)
        case Ok(comment) =>
          if Matches(blob.bytes, want) then Ok(Identity(blob.bytes, Ed25519Key(blob.bytes).value))
          else SelectFrom(buf, comment.next, n - 1, want)
  }

  function Select(reply: Bytes, want: Option<Bytes32>): Result<Identity> {
    if |reply| < 5 || reply[0] != IDENTITIES_ANSWER then Err(Signer)
    else SelectFrom(reply, 5, FromBigEndian(reply[1..5]), want)
  }

  /** The part of `connect` that works on the agent's reply. */
  method Connect(reply: Bytes, want: Option<Bytes32>) returns (r: Result<Identity>)
    ensures r == Select(reply, want)
  {
    hide StringAt, Ed25519Key;
    var reader := new Reader(reply);
    var tag := reader.U8();
    if tag.Err? {
      return Err(tag.error);
    }
    if tag.value != IDENTITIES_ANSWER {
      return Err(Signer);
    }
    var count := reader.U32();
    if count.Err? {
      return Err(count.error);
    }
    var i := 0;
    while i < count.value
      invariant i <= count.value && reader.Valid() && reader.buf == reply
      invariant SelectFrom(reply, reader.pos, count.value - i, want) == Select(reply, want)
    {
      var blob := reader.String();
      if blob.Err? {
        return Err(blob.error);
      }
      var comment := reader.String();
      if comment.Err? {
        return Err(comment.error);
      }
      var key := ParseEd25519PublicKey(blob.value);
      if key.Some? && (want.None? || want == key) {
        return Ok(Identity(blob.value, key.value));
      }
      i := i + 1;
    }
    r := Err(Signer);
  }

  datatype Entry = Entry(blob: Bytes, comment: Bytes)

  predicate EntryFits(e: Entry) {
    |e.blob| < U32_LIMIT && |e.comment| < U32_LIMIT
  }

  function EntryBytes(e: Entry): Bytes {
    SshString(e.blob) + SshString(e.comment)
  }

  function EntriesBytes(es: seq<Entry>): Bytes {
    if es == [] then [] else EntryBytes(es[0]) + EntriesBytes(es[1..])
  }

  /** A well-formed identities reply. */
  function IdentitiesReply(es: seq<Entry>): Bytes {
    [IDENTITIES_ANSWER] + BigEndian(|es| % U32_LIMIT, 4) + EntriesBytes(es)
  }

  lemma EntryReadsBack(before: Bytes, e: Entry, after: Bytes)
    requires EntryFits(e)
    ensures var buf := before + EntryBytes(e) + after;
            var next := |before| + 4 + |e.blob|;
            && StringAt(buf, |before|) == Ok(Field(e.blob, next))
            && StringAt(buf, next) == Ok(Field(e.comment, next + 4 + |e.comment|))
            && next + 4 + |e.comment| == |before + EntryBytes(e)|
  {
    hide SshString, StringAt;
    var buf := before + EntryBytes(e) + after;
    var blob, comment := SshString(e.blob), SshString(e.comment);
    assert buf == before + blob + (comment + after);
    StringRoundTrip(before, e.blob, comment + after);
    assert buf == (before + blob) + comment + after;
    StringRoundTrip(before + blob, e.comment, after);
  }

  /** One turn of the loop: take the first entry if it matches, else go on behind it. */
  lemma SelectSkips(before: Bytes, es: seq<Entry>, after: Bytes, want: Option<Bytes32>)
    requires es != [] && EntryFits(es[0])
    ensures SelectFrom(before + EntriesBytes(es) + after, |before|, |es|, want)
            == if Matches(es[0].blob, want) then Ok(Identity(es[0].blob, Ed25519Key(es[0].blob).value))
               else SelectFrom((before + EntryBytes(es[0])) + EntriesBytes(es[1..]) + after, |before + EntryBytes(es[0])|, |es[1..]|, want)
  {
    hide StringAt, Matches, Ed25519Key, EntryBytes, EntryFits;
    var e, rest := es[0], EntriesBytes(es[1..]);
    assert before + EntriesBytes(es) + after == before + EntryBytes(e) + (rest + after);
    assert before + EntryBytes(e) + (rest + after) == (before + EntryBytes(e)) + rest + after;
    EntryReadsBack(before, e, rest + after);
  }

  /** The choice among parsed entries. */
  function Choose(es: seq<Entry>, want: Option<Bytes32>): Result<Identity> {
    if es == [] then Err(Signer)
    else if Matches(es[0].blob, want) then Ok(Identity(es[0].blob, Ed25519Key(es[0].blob).value))
    else Choose(es[1..], want)
  }

  lemma {:induction false} SelectFromChooses(before: Bytes, es: seq<Entry>, after: Bytes, want: Option<Bytes32>)
    requires forall e :: e in es ==> EntryFits(e)
    ensures SelectFrom(before + EntriesBytes(es) + after, |before|, |es|, want) == Choose(es, want)
    decreases |es|
  {
    if es == [] {
    } else {
      SelectSkips(before, es, after, want);
      SelectFromChooses(before + EntryBytes(es[0]), es[1..], after, want);
      hide SelectFrom, EntryBytes, EntriesBytes, Matches, Ed25519Key, EntryFits;
    }
  }

  /** The `i`th entry holds the wanted ed25519 key, or any if none is wanted. */
  ghost predicate MatchAt(es: seq<Entry>, want: Option<Bytes32>, i: nat)
    requires i < |es|
  {
    if want.Some? then KeyBlob(es[i].blob, want.value) else exists key :: KeyBlob(es[i].blob, key)
  }

  ghost predicate FirstMatch(es: seq<Entry>, want: Option<Bytes32>, i: nat)
    requires i < |es|
  {
    MatchAt(es, want, i) && forall j :: 0 <= j < i ==> !MatchAt(es, want, j)
  }

  lemma MatchesExactly(es: seq<Entry>, want: Option<Bytes32>, i: nat)
    requires i < |es|
    ensures Matches(es[i].blob, want) <==> MatchAt(es, want, i)
    ensures MatchAt(es, want, i) ==> Ed25519Key(es[i].blob).Some? && KeyBlob(es[i].blob, Ed25519Key(es[i].blob).value)
    ensures MatchAt(es, want, i) && want.Some? ==> Ed25519Key(es[i].blob) == want
  {
    hide Ed25519Key, KeyBlob;
    var blob := es[i].blob;
    if Ed25519Key(blob).Some? {
      KeyExactly(blob, Ed25519Key(blob).value);
    }
    if want.Some? {
      KeyExactly(blob, want.value);
    } else if key: Bytes :| KeyBlob(blob, key) {
      KeyBlobLength(blob, key);
      KeyExactly(blob, key);
    }
  }

  lemma KeyBlobLength(blob: Bytes, key: Bytes)
    requires KeyBlob(blob, key)
    ensures |key| == 32
  {
  }

  lemma {:induction false} ChooseFindsFirst(es: seq<Entry>, want: Option<Bytes32>)
    ensures Choose(es, want).Ok? <==> exists i :: 0 <= i < |es| && MatchAt(es, want, i)
    ensures forall i :: 0 <= i < |es| && FirstMatch(es, want, i) ==>
              && Choose(es, want).Ok? && Choose(es, want).value.blob == es[i].blob
              && KeyBlob(es[i].blob, Choose(es, want).value.key)
              && (want.Some? ==> Choose(es, want).value.key == want.value)
  {
    hide Matches, Ed25519Key, KeyBlob, MatchAt;
    if es == [] {
    } else {
      var rest := es[1..];
      MatchesExactly(es, want, 0);
      if Matches(es[0].blob, want) {
        assert MatchAt(es, want, 0);
        assert forall i :: 0 < i < |es| ==> !FirstMatch(es, want, i);
      } else {
        ChooseFindsFirst(rest, want);
        forall i | 0 <= i < |rest|
          ensures MatchAt(rest, want, i) <==> MatchAt(es, want, i + 1)
        {
          MatchMoves(es, want, i);
        }
        forall i | 0 <= i < |es| && MatchAt(es, want, i)
          ensures 0 <= i - 1 < |rest| && MatchAt(rest, want, i - 1)
          ensures FirstMatch(es, want, i) ==> FirstMatch(rest, want, i - 1)
        {
          MatchMoves(es, want, i - 1);
        }
      }
    }
  }

  lemma MatchMoves(es: seq<Entry>, want: Option<Bytes32>, i: nat)
    requires i < |es| - 1
    ensures MatchAt(es[1..], want, i) <==> MatchAt(es, want, i + 1)
  {
    assert es[1..][i] == es[i + 1];
  }

  lemma SelectChooses(es: seq<Entry>, after: Bytes, want: Option<Bytes32>)
    requires |es| < U32_LIMIT && forall e :: e in es ==> EntryFits(e)
    ensures Select(IdentitiesReply(es) + after, want) == Choose(es, want)
  {
    hide EntriesBytes, SelectFrom, Matches, Choose, EntryFits, Ed25519Key, BigEndian, FromBigEndian;
    var reply := IdentitiesReply(es) + after;
    var header := [IDENTITIES_ANSWER] + BigEndian(|es|, 4);
    Pow256Words();
    BigEndianRoundTrip(|es|, 4);
    assert reply == header + EntriesBytes(es) + after;
    assert reply[1..5] == BigEndian(|es|, 4);
    SelectFromChooses(header, es, after, want);
  }

  /** On every well-formed reply, whatever follows it: the choice is exactly the first listed ed25519 key that is
      the wanted one (or any, if none is wanted), and fails exactly when none is listed. */
  lemma SelectFindsFirst(es: seq<Entry>, after: Bytes, want: Option<Bytes32>)
    requires |es| < U32_LIMIT && forall e :: e in es ==> EntryFits(e)
    ensures Select(IdentitiesReply(es) + after, want).Ok? <==> exists i :: 0 <= i < |es| && MatchAt(es, want, i)
    ensures forall i :: 0 <= i < |es| && FirstMatch(es, want, i) ==>
              var r := Select(IdentitiesReply(es) + after, want);
              && r.Ok? && r.value.blob == es[i].blob && KeyBlob(es[i].blob, r.value.key)
              && (want.Some? ==> r.value.key == want.value)
  {
    hide Select, IdentitiesReply, Matches, MatchAt, KeyBlob, Choose, FirstMatch, EntryFits;
    SelectChooses(es, after, want);
    ChooseFindsFirst(es, want);
  }

  /** The entries `es` stand one after the other from `pos` on, byte for byte. */
  predicate ListedAt(buf: Bytes, pos: nat, es: seq<Entry>)
    decreases |es|
  {
    es == [] || (EntryAt(buf, pos, es[0]) && ListedAt(buf, pos + |EntryBytes(es[0])|, es[1..]))
  }

  predicate EntryAt(buf: Bytes, pos: nat, e: Entry) {
    var next := pos + 4 + |e.blob|;
    && EntryFits(e)
    && next + 4 + |e.comment| <= |buf|
    && buf[pos..next] == SshString(e.blob)
    && buf[next..next + 4 + |e.comment|] == SshString(e.comment)
  }

  lemma EntryExactly(buf: Bytes, pos: nat, e: Entry)
    ensures var next := pos + 4 + |e.blob|;
            EntryAt(buf, pos, e)
            <==> && StringAt(buf, pos) == Ok(Field(e.blob, next))
                 && StringAt(buf, next) == Ok(Field(e.comment, next + 4 + |e.comment|))
  {
    hide StringAt, SshString;
    var next := pos + 4 + |e.blob|;
    StringExactly(buf, pos, e.blob, next);
    StringExactly(buf, next, e.comment, next + 4 + |e.comment|);
  }

  /** The loop succeeds with `id` only on entries that are there, at its first match. */
  lemma {:induction false} SelectSound(buf: Bytes, pos: nat, n: nat, want: Option<Bytes32>) returns (es: seq<Entry>)
    requires SelectFrom(buf, pos, n, want).Ok?
    ensures 0 < |es| <= n && ListedAt(buf, pos, es) && FirstMatch(es, want, |es| - 1)
    ensures es[|es| - 1].blob == SelectFrom(buf, pos, n, want).value.blob
    ensures KeyBlob(es[|es| - 1].blob, SelectFrom(buf, pos, n, want).value.key)
    decreases n
  {
    hide StringAt, Matches, Ed25519Key, KeyBlob, MatchAt, EntryAt, EntryBytes;
    var blob := StringAt(buf, pos).value;
    var comment := StringAt(buf, blob.next).value;
    var e := Entry(blob.bytes, comment.bytes);
    FieldEnds(buf, pos);
    FieldEnds(buf, blob.next);
    EntryExactly(buf, pos, e);
    EntryLength(e);
    if Matches(blob.bytes, want) {
      es := [e];
      MatchesExactly(es, want, 0);
    } else {
      var rest := SelectSound(buf, comment.next, n - 1, want);
      es := [e] + rest;
      assert es[1..] == rest;
      MatchesExactly(es, want, 0);
      MatchMoves(es, want, |rest| - 1);
      forall j | 0 <= j < |es| - 1
        ensures !MatchAt(es, want, j)
      {
        if j > 0 {
          MatchMoves(es, want, j - 1);
        }
      }
    }
  }

  lemma FieldEnds(buf: Bytes, pos: nat)
    ensures StringAt(buf, pos).Ok? ==>
              var f := StringAt(buf, pos).value; f.next == pos + 4 + |f.bytes| && StringAt(buf, pos) == Ok(Field(f.bytes, f.next))
  {
  }

  lemma EntryLength(e: Entry)
    ensures |EntryBytes(e)| == 8 + |e.blob| + |e.comment|
  {
  }

  /** And on any such entries it does succeed, there. */
  lemma {:induction false} SelectComplete(buf: Bytes, pos: nat, n: nat, want: Option<Bytes32>, es: seq<Entry>)
    requires 0 < |es| <= n && ListedAt(buf, pos, es) && FirstMatch(es, want, |es| - 1)
    ensures var r, last := SelectFrom(buf, pos, n, want), es[|es| - 1].blob;
            r.Ok? && r.value.blob == last && Ed25519Key(last) == Some(r.value.key)
    decreases n
  {
    hide StringAt, Matches, Ed25519Key, KeyBlob, MatchAt, EntryAt, EntryBytes;
    var e := es[0];
    EntryExactly(buf, pos, e);
    EntryLength(e);
    MatchesExactly(es, want, 0);
    if |es| == 1 {
    } else {
      forall i | 0 <= i < |es| - 1
        ensures MatchAt(es[1..], want, i) <==> MatchAt(es, want, i + 1)
      {
        MatchMoves(es, want, i);
      }
      SelectComplete(buf, pos + |EntryBytes(e)|, n - 1, want, es[1..]);
    }
  }

  /** A reply that lists `es` first, among at least that many, byte for byte. */
  ghost predicate Lists(reply: Bytes, es: seq<Entry>) {
    && |reply| >= 5 && reply[0] == 12 && 0 < |es|
    && |es| <= (reply[1] as int) * 0x100_0000 + (reply[2] as int) * 0x1_0000 + (reply[3] as int) * 0x100 + reply[4] as int
    && ListedAt(reply, 5, es)
  }

  /** What the choice is, exactly, on arbitrary bytes: the last of some listed entries, of which it alone matches. */
  ghost predicate Chosen(reply: Bytes, want: Option<Bytes32>, id: Identity, es: seq<Entry>) {
    && Lists(reply, es) && FirstMatch(es, want, |es| - 1)
    && id.blob == es[|es| - 1].blob && KeyBlob(id.blob, id.key)
  }

  lemma SelectExactly(reply: Bytes, want: Option<Bytes32>, id: Identity)
    ensures Select(reply, want) == Ok(id) <==> exists es :: Chosen(reply, want, id, es)
  {
    hide SelectFrom, KeyBlob, FirstMatch, ListedAt, Ed25519Key, FromBigEndian;
    if |reply| >= 5 {
      FromBigEndianBytes(reply[1..5]);
    }
    if Select(reply, want) == Ok(id) {
      var es := SelectSound(reply, 5, FromBigEndian(reply[1..5]), want);
      assert Chosen(reply, want, id, es);
    }
    if es :| Chosen(reply, want, id, es) {
      SelectComplete(reply, 5, FromBigEndian(reply[1..5]), want, es);
      KeyExactly(id.blob, id.key);
    }
  }

  // ---------------------------------------------------------------------------
  // Signing
  // ---------------------------------------------------------------------------

  /** The request `sign` sends: the key, the message, and no flags. */
  method BuildSignRequest(keyBlob: Bytes, message: Bytes) returns (payload: Bytes)
    ensures payload == [SIGN_REQUEST] + SshString(keyBlob) + SshString(message) + BigEndian(0, 4)
  {
    payload := [SIGN_REQUEST];
    payload := PutString(payload, keyBlob);
    payload := PutString(payload, message);
    payload := payload + BigEndian(0, 4);
  }

  /** The agent reads back exactly the key and the message it is asked to sign. */
  lemma SignRequestReadsBack(keyBlob: Bytes, message: Bytes)
    requires |keyBlob| < U32_LIMIT && |message| < U32_LIMIT
    ensures var p := [SIGN_REQUEST] + SshString(keyBlob) + SshString(message) + BigEndian(0, 4);
            && p[0] == SIGN_REQUEST
            && StringAt(p, 1) == Ok(Field(keyBlob, 5 + |keyBlob|))
            && StringAt(p, 5 + |keyBlob|) == Ok(Field(message, |p| - 4))
            && FromBigEndian(p[|p| - 4..]) == 0
  {
    hide SshString, StringAt, BigEndian, FromBigEndian;
    var flags := BigEndian(0, 4);
    var p := [SIGN_REQUEST] + SshString(keyBlob) + SshString(message) + flags;
    assert p == [SIGN_REQUEST] + SshString(keyBlob) + (SshString(message) + flags);
    StringRoundTrip([SIGN_REQUEST], keyBlob, SshString(message) + flags);
    StringRoundTrip([SIGN_REQUEST] + SshString(keyBlob), message, flags);
    Pow256Words();
    BigEndianRoundTrip(0, 4);
    assert p[|p| - 4..] == flags;
  }

  /** The raw signature in a sign reply. */
  function SignatureIn(reply: Bytes): Result<Bytes> {
    if reply == [] || reply[0] != SIGN_RESPONSE then Err(Signer)
    else match StringAt(reply, 1)
      case Err(e) => Err(e)
      case Ok(blob) =>
        match StringAt(blob.bytes, 0)
        case Err(e) => Err(e)
        case Ok(kind) =>
          if kind.bytes != ED25519_KEY_TYPE then Err(Signer)
          else match StringAt(blob.bytes, kind.next)
            case Err(e) => Err(e)
            case Ok(signature) => Ok(signature.bytes)
  }

  method ParseSignReply(reply: Bytes) returns (r: Result<Bytes>)
    ensures r == SignatureIn(reply)
  {
    var reader := new Reader(reply);
    var tag := reader.U8();
    if tag.Err? {
      return Err(tag.error);
    }
    if tag.value != SIGN_RESPONSE {
      return Err(Signer);
    }
    var blob := reader.String();
    if blob.Err? {
      return Err(blob.error);
    }
    var inner := new Reader(blob.value);
    var kind := inner.String();
    if kind.Err? {
      return Err(kind.error);
    }
    if kind.value != ED25519_KEY_TYPE {
      return Err(Signer);
    }
    r := inner.String();
  }

  /** A reply that carries `signature`, byte for byte, in the blob `blob`. */
  predicate Carries(reply: Bytes, blob: Bytes, signature: Bytes) {
    && |blob| < U32_LIMIT && |signature| < U32_LIMIT
    && |reply| >= 5 + |blob| && reply[0] == 14 && reply[1..5 + |blob|] == SshString(blob)
    && |blob| >= 19 + |signature| && blob[..15] == SshString(ED25519_KEY_TYPE)
    && blob[15..19 + |signature|] == SshString(signature)
  }

  /** On arbitrary bytes, the signature taken from a reply is exactly one that it carries. */
  lemma SignatureExactly(reply: Bytes, signature: Bytes)
    ensures SignatureIn(reply) == Ok(signature) <==> exists blob :: Carries(reply, blob, signature)
  {
    hide StringAt, SshString, Ascii;
    if SignatureIn(reply) == Ok(signature) {
      var blob := StringAt(reply, 1).value.bytes;
      FieldEnds(reply, 1);
      FieldEnds(blob, 0);
      FieldEnds(blob, 15);
      CarriesExactly(reply, blob, signature);
      assert Carries(reply, blob, signature);
    }
    if blob :| Carries(reply, blob, signature) {
      CarriesExactly(reply, blob, signature);
    }
  }

  lemma CarriesExactly(reply: Bytes, blob: Bytes, signature: Bytes)
    ensures Carries(reply, blob, signature)
            <==> && reply != [] && reply[0] == SIGN_RESPONSE
                 && StringAt(reply, 1) == Ok(Field(blob, 5 + |blob|))
                 && StringAt(blob, 0) == Ok(Field(ED25519_KEY_TYPE, 15))
                 && StringAt(blob, 15) == Ok(Field(signature, 19 + |signature|))
  {
    hide StringAt, SshString, Ascii;
    StringExactly(reply, 1, blob, 5 + |blob|);
    StringExactly(blob, 0, ED25519_KEY_TYPE, 15);
    StringExactly(blob, 15, signature, 19 + |signature|);
    assert |blob| >= 15 ==> blob[0..15] == blob[..15];
  }

  /** The nested reply is inverted, and a signature of any other type refused. */
  lemma SignReplyRoundTrip(kind: Bytes, signature: Bytes, after: Bytes, after': Bytes)
    requires |kind| < U32_LIMIT && |SshString(kind) + SshString(signature) + after| < U32_LIMIT
    ensures SignatureIn([SIGN_RESPONSE] + SshString(SshString(kind) + SshString(signature) + after) + after')
            == if kind == ED25519_KEY_TYPE then Ok(signature) else Err(Signer)
  {
    hide SshString, StringAt;
    var blob := SshString(kind) + SshString(signature) + after;
    var reply := [SIGN_RESPONSE] + SshString(blob) + after';
    StringRoundTrip([SIGN_RESPONSE], blob, after');
    assert reply[0] == SIGN_RESPONSE;
    assert blob == [] + SshString(kind) + (SshString(signature) + after);
    StringRoundTrip([], kind, SshString(signature) + after);
    StringRoundTrip(SshString(kind), signature, after);
  }
}
