/** Cutting text to a number of bytes: fcm/message.go, on UTF-8 as defined in
    section 4 of RFC 3629. */
module Truncate {
  import opened Prelude

  type Byte = b: int | 0 <= b < 256

  predicate Tail(b: Byte) { 0x80 <= b <= 0xBF }

  /** A byte that does not continue a character. */
  predicate RuneStart(b: Byte) { !Tail(b) }

  /** The length of the character the bytes start with, 0 if they start with none. */
  function CharLength(s: seq<Byte>): (n: nat)
    ensures n <= 4 && n <= |s|
  {
    if |s| >= 1 && s[0] <= 0x7F then 1
    else if |s| >= 2 && 0xC2 <= s[0] <= 0xDF && Tail(s[1]) then 2
    else if |s| >= 3 && Second3(s[0], s[1]) && Tail(s[2]) then 3
    else if |s| >= 4 && Second4(s[0], s[1]) && Tail(s[2]) && Tail(s[3]) then 4
    else 0
  }

  predicate Second3(b0: Byte, b1: Byte) {
    (b0 == 0xE0 && 0xA0 <= b1 <= 0xBF) || (0xE1 <= b0 <= 0xEC && Tail(b1)) ||
    (b0 == 0xED && 0x80 <= b1 <= 0x9F) || (0xEE <= b0 <= 0xEF && Tail(b1))
  }

  predicate Second4(b0: Byte, b1: Byte) {
    (b0 == 0xF0 && 0x90 <= b1 <= 0xBF) || (0xF1 <= b0 <= 0xF3 && Tail(b1)) || (b0 == 0xF4 && 0x80 <= b1 <= 0x8F)
  }

  predicate Utf8(s: seq<Byte>) {
    s == [] || (CharLength(s) > 0 && Utf8(s[CharLength(s)..]))
  }

  lemma PrefixOfAChar(s: seq<Byte>, n: nat)
    requires CharLength(s) > 0 && n <= |s|
    ensures n >= CharLength(s) ==> CharLength(s[..n]) == CharLength(s)
    ensures n < CharLength(s) ==> CharLength(s[..n]) == 0
    ensures 0 < n < CharLength(s) ==> !RuneStart(s[n])
    ensures RuneStart(s[0])
  {
  }

  /** In UTF-8 text the places to cut are exactly those before a starting byte. */
  lemma {:induction false} CutsAreAtStarts(s: seq<Byte>, n: nat)
    requires Utf8(s) && n < |s|
    ensures Utf8(s[..n]) <==> RuneStart(s[n])
    decreases |s|
  {
    var k := CharLength(s);
    PrefixOfAChar(s, n);
    if n >= k {
      assert s[..n][k..] == s[k..][..n - k];
      if n > 0 { CutsAreAtStarts(s[k..], n - k); }
    } else if n == 0 {
      assert s[..n] == [];
    }
  }

  /** And none of them is more than three bytes away. */
  lemma {:induction false} StartWithinThree(s: seq<Byte>, n: nat) returns (i: nat)
    requires Utf8(s) && n < |s|
    ensures n - 3 <= i <= n && RuneStart(s[i])
    decreases |s|
  {
    var k := CharLength(s);
    PrefixOfAChar(s, 0);
    if n < k {
      i := 0;
    } else {
      i := StartWithinThree(s[k..], n - k);
      i := i + k;
    }
  }

  method TruncateBytes(s: seq<Byte>, limit: nat) returns (r: seq<Byte>)
    ensures r <= s && |r| <= limit
    ensures |s| <= limit ==> r == s
    ensures |s| > limit && r != [] ==> s[|r|] < 0x80 || 0xBF < s[|r|]
    ensures forall i | |r| < i <= limit && i < |s| :: 0x80 <= s[i] <= 0xBF
    ensures Utf8(s) ==> LongestUtf8Prefix(s, r, limit)
    ensures Utf8(s) && |s| > limit ==> |r| >= limit - 3
  {
    if |s| <= limit {
      assert s[..|s|] == s;
      return s;
    }
    var cut := limit;
    while cut > 0 && !RuneStart(s[cut])
      invariant 0 <= cut <= limit
      invariant forall i | cut < i <= limit :: !RuneStart(s[i])
    {
      cut := cut - 1;
    }
    r := s[..cut];
    if Utf8(s) {
      PrefixOfAChar(s, 0);
      forall i | 0 <= i <= limit ensures Utf8(s[..i]) <==> RuneStart(s[i]) { CutsAreAtStarts(s, i); }
      var near := StartWithinThree(s, limit);
    }
  }

  ghost predicate LongestUtf8Prefix(s: seq<Byte>, r: seq<Byte>, limit: nat) {
    r <= s && |r| <= limit && Utf8(r) && forall n | |r| < n <= limit && n <= |s| :: !Utf8(s[..n])
  }

  // ----- the message ------------------------------------------------------

  const MAX_TITLE_BYTES := 512
  const MAX_BODY_BYTES := 2048

  datatype Message = Message(title: seq<Byte>, body: seq<Byte>, link: seq<Byte>, tag: seq<Byte>,
                             data: map<string, seq<Byte>>, ttl: Time)

  datatype Request = Request(token: seq<Byte>, data: map<string, seq<Byte>>, ttlSeconds: Option<int>)

  /** `token` is the address with surrounding space trimmed; None is ErrEmptyAddress. */
  method NewSendRequest(msg: Message, token: seq<Byte>) returns (r: Option<Request>)
    ensures r.None? <==> token == []
    ensures r.Some? ==> r.value.token == token
    ensures r.Some? ==> r.value.data.Keys == msg.data.Keys + {"title", "body", "link", "tag"}
    ensures r.Some? ==> forall k | k in msg.data && k !in {"title", "body", "link", "tag"} ::
              r.value.data[k] == msg.data[k]
    ensures r.Some? ==> r.value.data["link"] == msg.link && r.value.data["tag"] == msg.tag
    ensures r.Some? && Utf8(msg.title) ==> LongestUtf8Prefix(msg.title, r.value.data["title"], 512)
    ensures r.Some? && Utf8(msg.body) ==> LongestUtf8Prefix(msg.body, r.value.data["body"], 2048)
    ensures r.Some? ==> r.value.ttlSeconds == if msg.ttl > 0 then Some(msg.ttl / 1_000_000_000) else None
  {
    if token == [] { return None; }
    var data := msg.data;
    var title := TruncateBytes(msg.title, MAX_TITLE_BYTES);
    data := data["title" := title];
    var body := TruncateBytes(msg.body, MAX_BODY_BYTES);
    data := data["body" := body];
    data := data["link" := msg.link];
    data := data["tag" := msg.tag];
    var ttl: Option<int> := None;
    if msg.ttl > 0 { ttl := Some(msg.ttl / SECOND); }
    r := Some(Request(token, data, ttl));
  }
}
