/** GameSpy QR1 query strings as the server sees them on its game socket:
  * recognising a query and the master's \secure\ challenge, reading a
  * \key\value pair out of a query, and building the status reply and the
  * validate reply whose hash comes from gsmsalg. */
module GameSpy {
  import opened Bytes
  import Arrays
  import Decimal
  import Gsmsalg

  const Backslash: byte := 92

  /** A datagram whose first byte is '\' is a GameSpy query; game packets
    * never start with it. */
  predicate IsQuery(data: seq<byte>)
  {
    |data| > 0 && data[0] == Backslash
  }

  const SecureTag: seq<byte> := Ascii("\\secure\\")

  /** "\secure\" followed by at least one more byte. Every secure challenge
    * is also a query, so the dispatcher tests for it first. */
  predicate IsSecure(data: seq<byte>): (r: bool)
    ensures r ==> IsQuery(data)
  {
    |data| >= 9 && data[..8] == SecureTag
  }

  /** A field with no '\' in it, which a query string can carry whole. */
  predicate Plain(s: seq<byte>)
  {
    Backslash !in s
  }

  /** The bytes of s before its first '\' or NUL. */
  function Token(s: seq<byte>): (t: seq<byte>)
    ensures t <= s && Plain(t) && 0 !in t
    ensures |t| < |s| ==> s[|t|] == Backslash || s[|t|] == 0
  {
    if |s| == 0 || s[0] == Backslash || s[0] == 0 then [] else [s[0]] + Token(s[1..])
  }

  /** The challenge a \secure\ packet carries: the token after the tag,
    * or None when the packet is not secure or the token is empty. */
  function Challenge(data: seq<byte>): (c: Option<seq<byte>>)
    ensures c.Some? ==> IsSecure(data) && 0 < |c.value| <= |data| - 8
    ensures c.Some? ==> data[..8] + c.value <= data && Plain(c.value) && 0 !in c.value
  {
    if !IsSecure(data) then None
    else
      var t := Token(data[8..]);
      if |t| == 0 then None else Some(t)
  }

  /** bc_gamespy_extract_secure: copies the challenge and a NUL into out
    * when it fits below outSize; returns its length, or 0 when there is
    * none or it does not fit. */
  method ExtractSecure(data: seq<byte>, out: array<byte>, outSize: int) returns (n: int)
    requires outSize <= out.Length
    modifies out
    ensures n == (match Challenge(data)
                  case None => 0
                  case Some(c) => if |c| >= outSize then 0 else |c|)
    ensures n > 0 ==> out[..] == Challenge(data).value + [0] + old(out[n + 1..])
    ensures n == 0 ==> out[..] == old(out[..])
  {
    n := 0;
    if IsSecure(data) {
      var end := TokenEnd(data, 8);
      var clen := end - 8;
      if clen != 0 && clen < outSize {
        assert data[8..end] == Challenge(data).value;
        Arrays.CopyAt(out, 0, data[8..end] + [0]);
        n := clen;
      }
    }
  }

  /** The scan of extract_secure: the end of the token from start. */
  method TokenEnd(data: seq<byte>, start: nat) returns (end: nat)
    requires start <= |data|
    ensures start <= end <= |data| && data[start..end] == Token(data[start..])
  {
    ghost var rest := data[start..];
    end := start;
    while end < |data| && data[end] != Backslash && data[end] != 0
      invariant start <= end <= |data|
      invariant end - start <= |Token(rest)|
    {
      assert data[end] == rest[end - start];
      end := end + 1;
    }
    assert data[start..end] == rest[..end - start];
  }

  /** The bytes of s before its first '\'. */
  function Field(s: seq<byte>): (t: seq<byte>)
    ensures t <= s && Plain(t)
    ensures |t| < |s| ==> s[|t|] == Backslash
  {
    if |s| == 0 || s[0] == Backslash then [] else [s[0]] + Field(s[1..])
  }

  /** q starts with '\' key '\'. */
  predicate KeyHere(q: seq<byte>, key: seq<byte>)
  {
    1 + |key| < |q| && q[0] == Backslash && q[1..1 + |key|] == key && q[1 + |key|] == Backslash
  }

  /** extract_gs_value: the value after the first '\' key '\' found at any
    * '\' of the query, running to the next '\' or the end. */
  function Lookup(q: seq<byte>, key: seq<byte>): (r: Option<seq<byte>>)
    ensures r.Some? ==> Plain(r.value) && |r.value| <= |q|
    decreases |q|
  {
    if |q| == 0 then None
    else if KeyHere(q, key) then Some(Field(q[2 + |key|..]))
    else Lookup(q[1..], key)
  }

  /** The scan of extract_gs_value over the query's positions. */
  method ExtractValue(query: seq<byte>, key: seq<byte>) returns (r: Option<seq<byte>>)
    ensures r == Lookup(query, key)
  {
    r := None;
    var i := 0;
    while i < |query| && r.None?
      invariant 0 <= i <= |query|
      invariant r.None? ==> Lookup(query, key) == Lookup(query[i..], key)
      invariant r.Some? ==> r == Lookup(query, key)
      decreases |query| - i, if r.None? then 1 else 0
    {
      var start := i + 1;
      KeyAt(query, i, key);
      if query[i] == Backslash && start + |key| < |query|
         && query[start..start + |key|] == key && query[start + |key|] == Backslash
      {
        var vend := FieldEnd(query, start + |key| + 1);
        r := Some(query[start + |key| + 1..vend]);
      } else {
        i := i + 1;
      }
    }
  }

  /** The test extract_gs_value makes at position i is KeyHere on the
    * suffix from i, whose value then starts after the key's ''. */
  lemma KeyAt(q: seq<byte>, i: nat, key: seq<byte>)
    requires i < |q|
    ensures KeyHere(q[i..], key) <==>
      q[i] == Backslash && i + 1 + |key| < |q| && q[i + 1..i + 1 + |key|] == key && q[i + 1 + |key|] == Backslash
    ensures KeyHere(q[i..], key) ==> q[i..][2 + |key|..] == q[i + 2 + |key|..]
    ensures q[i..][1..] == q[i + 1..]
  {
    if i + 1 + |key| < |q| {
      assert q[i..][1..1 + |key|] == q[i + 1..i + 1 + |key|];
    }
  }

  /** The inner scan of extract_gs_value: the end of the value from vstart. */
  method FieldEnd(query: seq<byte>, vstart: nat) returns (vend: nat)
    requires vstart <= |query|
    ensures vstart <= vend <= |query| && query[vstart..vend] == Field(query[vstart..])
  {
    ghost var rest := query[vstart..];
    vend := vstart;
    while vend < |query| && query[vend] != Backslash
      invariant vstart <= vend <= |query|
      invariant vend - vstart <= |Field(rest)|
    {
      assert query[vend] == rest[vend - vstart];
      vend := vend + 1;
    }
    assert query[vstart..vend] == rest[..vend - vstart];
  }

  /** The query string that holds the fields fs as '\' f0 '\' f1 ... */
  function Join(fs: seq<seq<byte>>): (r: seq<byte>)
    ensures |fs| > 0 ==> |r| > 0 && r[0] == Backslash
  {
    if |fs| == 0 then [] else [Backslash] + fs[0] + Join(fs[1..])
  }

  predicate AllPlain(fs: seq<seq<byte>>)
  {
    forall f :: f in fs ==> Plain(f)
  }

  /** Reference reading of a field list: the field after the first field
    * equal to key that has a successor. Keys and values are not told
    * apart, as the byte scan does not tell them apart either. */
  function FieldAfter(fs: seq<seq<byte>>, key: seq<byte>): (r: Option<seq<byte>>)
    ensures r.Some? ==> exists k :: 0 <= k < |fs| - 1 && fs[k] == key && fs[k + 1] == r.value
  {
    if |fs| < 2 then None
    else if fs[0] == key then Some(fs[1])
    else
      var r := FieldAfter(fs[1..], key);
      if r.Some? then
        var k :| 0 <= k < |fs| - 2 && fs[1..][k] == key && fs[1..][k + 1] == r.value;
        assert fs[k + 1] == key && fs[k + 2] == r.value;
        r
      else r
  }

  lemma {:induction false} FieldPlain(p: seq<byte>, r: seq<byte>)
    requires Plain(p) && (|r| == 0 || r[0] == Backslash)
    ensures Field(p + r) == p
    decreases |p|
  {
    if |p| > 0 {
      assert (p + r)[1..] == p[1..] + r;
      FieldPlain(p[1..], r);
    }
  }

  lemma {:induction false} LookupSkip(p: seq<byte>, r: seq<byte>, key: seq<byte>)
    requires Plain(p)
    ensures Lookup(p + r, key) == Lookup(r, key)
    decreases |p|
  {
    if |p| > 0 {
      assert (p + r)[0] == p[0];
      assert (p + r)[1..] == p[1..] + r;
      LookupSkip(p[1..], r, key);
    } else {
      assert p + r == r;
    }
  }

  /** A query that opens with '\' k '\' v answers v for k. */
  lemma LookupFirst(k: seq<byte>, v: seq<byte>, r: seq<byte>)
    requires Plain(v) && (|r| == 0 || r[0] == Backslash)
    ensures Lookup([Backslash] + k + [Backslash] + v + r, k) == Some(v)
  {
    var q := [Backslash] + k + [Backslash] + v + r;
    assert q[1..1 + |k|] == k;
    assert q[2 + |k|..] == v + r;
    FieldPlain(v, r);
  }

  /** A query that opens with a plain field other than key, or with key
    * as its last field, has no match for key at its first '\'. */
  lemma NoKeyFirst(f: seq<byte>, tail: seq<byte>, key: seq<byte>)
    requires Plain(f) && Plain(key) && (f != key || |tail| == 0)
    requires |tail| == 0 || tail[0] == Backslash
    ensures !KeyHere([Backslash] + f + tail, key)
  {
    var q := [Backslash] + f + tail;
    if |key| < |f| {
      assert q[1 + |key|] == f[|key|];
    } else if |key| == |f| {
      assert q[1..1 + |key|] == f;
    } else if 1 + |key| < |q| {
      assert q[1..1 + |key|][|f|] == tail[0];
    }
  }

  /** Reading a key back from a query built of plain fields finds the
    * field after the key's first occurrence. */
  lemma {:induction false} LookupJoin(fs: seq<seq<byte>>, key: seq<byte>)
    requires AllPlain(fs) && Plain(key)
    ensures Lookup(Join(fs), key) == FieldAfter(fs, key)
    decreases |fs|
  {
    if |fs| > 0 {
      var tail := Join(fs[1..]);
      assert Join(fs) == [Backslash] + fs[0] + tail;
      assert fs[0] in fs && Plain(fs[0]);
      if fs[0] == key && |fs| >= 2 {
        assert fs[1] in fs;
        assert fs[1..][1..] == fs[2..];
        assert tail == [Backslash] + fs[1] + Join(fs[2..]);
        assert Join(fs) == [Backslash] + key + [Backslash] + fs[1] + Join(fs[2..]);
        LookupFirst(key, fs[1], Join(fs[2..]));
      } else {
        assert AllPlain(fs[1..]) by {
          forall f | f in fs[1..] ensures Plain(f) {
            assert f in fs;
          }
        }
        NoKeyFirst(fs[0], tail, key);
        assert Join(fs)[1..] == fs[0] + tail;
        LookupSkip(fs[0], tail, key);
        LookupJoin(fs[1..], key);
      }
    }
  }

  /** Fields before the first occurrence of key do not change the reading. */
  lemma {:induction false} FieldAfterSkip(a: seq<seq<byte>>, b: seq<seq<byte>>, key: seq<byte>)
    requires key !in a
    ensures FieldAfter(a + b, key) == FieldAfter(b, key)
    decreases |a|
  {
    if |a| > 0 {
      assert (a + b)[1..] == a[1..] + b;
      FieldAfterSkip(a[1..], b, key);
    } else {
      assert a + b == b;
    }
  }

  /** The server description the status reply reports (bc_server_info_t);
    * the strings are C strings, the numbers C ints. */
  datatype ServerInfo = ServerInfo(
    hostname: seq<byte>, missionscript: seq<byte>, mapname: seq<byte>,
    numplayers: i32, maxplayers: i32, gamemode: seq<byte>,
    timelimit: i32, fraglimit: i32, system: seq<byte>)

  /** A literal field of the replies: ASCII text with no '\' in it. */
  predicate Literal(s: string)
  {
    forall i :: 0 <= i < |s| ==> s[i] as int < 0x80 && s[i] != '\\'
  }

  function Key(s: string): (r: seq<byte>)
    requires Literal(s)
    ensures r == Ascii(s) && Plain(r)
    ensures |r| == |s| && (|s| > 0 ==> r[0] == s[0] as int)
  {
    Ascii(s)
  }

  const QueryIdKey: seq<byte> := Key("queryid")
  const DefaultQueryId: seq<byte> := Key("1.1")
  const FinalKey: seq<byte> := Key("final")
  const GameNameKey: seq<byte> := Key("gamename")
  const GameName: seq<byte> := Key("bcommander")
  const GameVerKey: seq<byte> := Key("gamever")
  const GameVer: seq<byte> := Key("60")
  const LocationKey: seq<byte> := Key("location")
  const Zero: seq<byte> := Key("0")
  const HostnameKey: seq<byte> := Key("hostname")
  const MissionScriptKey: seq<byte> := Key("missionscript")
  const MapNameKey: seq<byte> := Key("mapname")
  const NumPlayersKey: seq<byte> := Key("numplayers")
  const MaxPlayersKey: seq<byte> := Key("maxplayers")
  const GameModeKey: seq<byte> := Key("gamemode")
  const TimeLimitKey: seq<byte> := Key("timelimit")
  const FragLimitKey: seq<byte> := Key("fraglimit")
  const SystemKey: seq<byte> := Key("system")
  const PasswordKey: seq<byte> := Key("password")
  const ValidateKey: seq<byte> := Key("validate")

  /** The info callback's fields, which both replies start with. */
  const InfoHead: seq<seq<byte>> := [GameNameKey, GameName, GameVerKey, GameVer, LocationKey, Zero]

  /** The basic callback's fields. */
  function BasicFields(info: ServerInfo): (fs: seq<seq<byte>>)
    ensures |fs| == 12
  {
    [HostnameKey, CText(info.hostname),
     MissionScriptKey, CText(info.missionscript),
     MapNameKey, CText(info.mapname),
     NumPlayersKey, Decimal.Signed(info.numplayers),
     MaxPlayersKey, Decimal.Signed(info.maxplayers),
     GameModeKey, CText(info.gamemode)]
  }

  /** The rules callback's fields; the password flag is always 0. */
  function RulesFields(info: ServerInfo): (fs: seq<seq<byte>>)
    ensures |fs| == 8
  {
    [TimeLimitKey, Decimal.Signed(info.timelimit),
     FragLimitKey, Decimal.Signed(info.fraglimit),
     SystemKey, CText(info.system),
     PasswordKey, Zero]
  }

  /** The info, basic and rules callbacks' fields, in stock order. */
  function InfoFields(info: ServerInfo): (fs: seq<seq<byte>>)
    ensures |fs| == 26
  {
    InfoHead + BasicFields(info) + RulesFields(info)
  }

  /** The query id echoed back: the query's own when it is 1 to 31 bytes
    * long (printed with %.*s, so up to its first NUL), otherwise 1.1. */
  function QueryId(query: seq<byte>): (id: seq<byte>)
    ensures Plain(id)
  {
    match Lookup(query, QueryIdKey)
    case Some(v) => if 0 < |v| < 32 then CText(v) else DefaultQueryId
    case None => DefaultQueryId
  }

  /** The whole status reply: the info fields, then \final\, then
    * \queryid\ and the id with no trailing '\'. */
  function ResponseFields(info: ServerInfo, query: seq<byte>): seq<seq<byte>>
  {
    InfoFields(info) + [FinalKey, [], QueryIdKey, QueryId(query)]
  }

  function Response(info: ServerInfo, query: seq<byte>): seq<byte>
  {
    Join(ResponseFields(info, query))
  }

  /** What snprintf(out, size, ...) stores for a formatted text s: as much
    * of s as fits before a NUL, and nothing at all when size is 0. */
  function Stored(s: seq<byte>, size: int): (r: seq<byte>)
    ensures size <= 0 ==> r == []
    ensures |s| < size ==> r == s + [0]
    ensures 0 < size <= |s| ==> r == s[..size - 1] + [0]
  {
    if size <= 0 then [] else if |s| < size then s + [0] else s[..size - 1] + [0]
  }

  /** snprintf(out + at, size, "%s", s): returns the length s would take,
    * whether or not it fitted. */
  method Snprintf(out: array<byte>, at: nat, size: int, s: seq<byte>) returns (len: nat)
    requires 0 <= size && at + size <= out.Length
    modifies out
    ensures len == |s|
    ensures out[..] == old(out[..])[..at] + Stored(s, size) + old(out[..])[at + |Stored(s, size)|..]
  {
    Arrays.CopyAt(out, at, Stored(s, size));
    len := |s|;
  }

  /** \final\ as the reply carries it: the key and an empty field. */
  const FinalTag: seq<byte> := Join([FinalKey, []])

  /** The closing \queryid\ field with no trailing '\'. */
  function QueryIdTag(query: seq<byte>): seq<byte>
  {
    Join([QueryIdKey, QueryId(query)])
  }

  /** The reply is written in three pieces: the formatted info fields,
    * \final\, and the query id. */
  lemma ResponseParts(info: ServerInfo, query: seq<byte>)
    ensures Response(info, query) == Join(InfoFields(info)) + FinalTag + QueryIdTag(query)
  {
    var finalFs: seq<seq<byte>> := [FinalKey, []];
    var idFs := [QueryIdKey, QueryId(query)];
    assert ResponseFields(info, query) == InfoFields(info) + (finalFs + idFs);
    JoinAppend(InfoFields(info), finalFs + idFs);
    JoinAppend(finalFs, idFs);
  }

  /** One snprintf of the reply followed by its overflow test: ok when
    * s and its NUL fit below outSize after the w bytes already written. */
  method AppendText(out: array<byte>, outSize: int, w: nat, ghost prefix: seq<byte>, s: seq<byte>)
    returns (ok: bool)
    requires w == |prefix| <= outSize <= out.Length && out[..|prefix|] == prefix
    modifies out
    ensures ok <==> |prefix| + |s| < outSize
    ensures ok ==> out[..|prefix| + |s|] == prefix + s && out[|prefix| + |s|] == 0
    ensures out[outSize..] == old(out[outSize..])
  {
    ghost var before := out[..];
    var added := Snprintf(out, w, outSize - w, s);
    ok := w + added < outSize;
    assert out[outSize..] == before[outSize..];
    if ok {
      assert out[..w + |s|] == before[..w] + s;
      assert out[w + |s|] == 0;
    }
  }

  /** bc_gamespy_build_response: -1 exactly when the reply does not fit
    * below outSize; otherwise the reply, NUL-terminated, and its length.
    * Nothing at or beyond outSize is touched. */
  method BuildResponse(out: array<byte>, outSize: int, info: ServerInfo, query: seq<byte>)
    returns (n: int)
    requires 0 <= outSize <= out.Length
    modifies out
    ensures n == -1 <==> |Response(info, query)| >= outSize
    ensures n != -1 ==> n == |Response(info, query)| && out[..n] == Response(info, query) && out[n] == 0
    ensures out[outSize..] == old(out[outSize..])
  {
    ResponseParts(info, query);
    var body := Join(InfoFields(info));
    n := -1;
    var ok := AppendText(out, outSize, 0, [], body);
    if ok {
      n := AppendClosing(out, outSize, body, query);
    }
  }

  /** The \final\ and \queryid\ appends that follow the info fields. */
  method AppendClosing(out: array<byte>, outSize: int, body: seq<byte>, query: seq<byte>)
    returns (n: int)
    requires |body| < outSize <= out.Length && out[..|body|] == body
    modifies out
    ensures var r := body + FinalTag + QueryIdTag(query);
      (n == -1 <==> |r| >= outSize) && (n != -1 ==> n == |r| && out[..n] == r && out[n] == 0)
    ensures out[outSize..] == old(out[outSize..])
  {
    n := -1;
    var ok := AppendText(out, outSize, |body|, body, FinalTag);
    if ok {
      var qid := ExtractValue(query, QueryIdKey);
      var id := if qid.Some? && 0 < |qid.value| < 32 then CText(qid.value) else DefaultQueryId;
      assert id == QueryId(query);
      var tail := Join([QueryIdKey, id]);
      ok := AppendText(out, outSize, |body| + |FinalTag|, body + FinalTag, tail);
      if ok {
        n := |body| + |FinalTag| + |tail|;
      }
    }
  }

  lemma {:induction false} JoinAppend(a: seq<seq<byte>>, b: seq<seq<byte>>)
    ensures Join(a + b) == Join(a) + Join(b)
    decreases |a|
  {
    if |a| > 0 {
      assert (a + b)[1..] == a[1..] + b;
      JoinAppend(a[1..], b);
    } else {
      assert a + b == b;
    }
  }

  /** A server text the reply can carry as one field, and that cannot be
    * mistaken for the queryid key. */
  predicate Reportable(text: seq<byte>)
  {
    Plain(CText(text)) && CText(text) != QueryIdKey
  }

  /** %d output is digits and a sign: plain, and never the queryid key. */
  lemma SignedIsPlain(v: int)
    ensures Plain(Decimal.Signed(v)) && Decimal.Signed(v) != QueryIdKey
  {
    assert Decimal.Signed(v)[0] != QueryIdKey[0];
  }

  lemma AllPlainAppend(a: seq<seq<byte>>, b: seq<seq<byte>>)
    requires AllPlain(a) && AllPlain(b)
    ensures AllPlain(a + b)
  {
  }

  lemma BasicFieldsPlain(info: ServerInfo)
    requires Reportable(info.hostname) && Reportable(info.missionscript) && Reportable(info.mapname)
    requires Reportable(info.gamemode)
    ensures AllPlain(BasicFields(info)) && QueryIdKey !in BasicFields(info)
  {
    SignedIsPlain(info.numplayers);
    SignedIsPlain(info.maxplayers);
  }

  lemma RulesFieldsPlain(info: ServerInfo)
    requires Reportable(info.system)
    ensures AllPlain(RulesFields(info)) && QueryIdKey !in RulesFields(info)
  {
    SignedIsPlain(info.timelimit);
    SignedIsPlain(info.fraglimit);
  }

  lemma InfoFieldsPlain(info: ServerInfo)
    requires Reportable(info.hostname) && Reportable(info.missionscript) && Reportable(info.mapname)
    requires Reportable(info.gamemode) && Reportable(info.system)
    ensures AllPlain(InfoFields(info)) && QueryIdKey !in InfoFields(info)
  {
    BasicFieldsPlain(info);
    RulesFieldsPlain(info);
    assert AllPlain(InfoHead) && QueryIdKey !in InfoHead;
    AllPlainAppend(InfoHead, BasicFields(info));
    AllPlainAppend(InfoHead + BasicFields(info), RulesFields(info));
  }

  /** A client reads back the query id it sent (or 1.1) from the reply,
    * as long as no server text contains a '\' or reads "queryid". */
  lemma ResponseEchoesQueryId(info: ServerInfo, query: seq<byte>)
    requires Reportable(info.hostname) && Reportable(info.missionscript) && Reportable(info.mapname)
    requires Reportable(info.gamemode) && Reportable(info.system)
    ensures Lookup(Response(info, query), QueryIdKey) == Some(QueryId(query))
  {
    var fs := InfoFields(info);
    var tail := [FinalKey, [], QueryIdKey, QueryId(query)];
    InfoFieldsPlain(info);
    assert AllPlain(fs + tail);
    assert Response(info, query) == Join(fs + tail);
    LookupJoin(fs + tail, QueryIdKey);
    FieldAfterSkip(fs, tail, QueryIdKey);
    assert tail[1..][1..] == [QueryIdKey, QueryId(query)];
    assert FieldAfter(tail[1..][1..], QueryIdKey) == Some(QueryId(query));
    assert FieldAfter(tail[1..], QueryIdKey) == Some(QueryId(query));
  }

  /** Whatever the server's texts, the reply names the game first. */
  lemma ResponseNamesGame(info: ServerInfo, query: seq<byte>)
    ensures Lookup(Response(info, query), GameNameKey) == Some(GameName)
  {
    var fs := ResponseFields(info, query);
    assert fs[0] == GameNameKey && fs[1] == GameName;
    assert fs[1..][1..] == fs[2..];
    assert Join(fs) == [Backslash] + GameNameKey + [Backslash] + GameName + Join(fs[2..]);
    LookupFirst(GameNameKey, GameName, Join(fs[2..]));
  }

  /** The validate reply: the info fields, the hash, \final\ and the
    * fixed query id 1.1. */
  function ValidateFields(hash: seq<byte>): seq<seq<byte>>
  {
    InfoHead + [ValidateKey, hash, FinalKey, [], QueryIdKey, DefaultQueryId]
  }

  function ValidateText(challenge: seq<byte>, key: seq<byte>): seq<byte>
    requires 1 <= |CText(challenge)| <= 65 ==> |CText(key)| > 0
  {
    Join(ValidateFields(Gsmsalg.Hash(challenge, key)))
  }

  /** The gsmsalg hash is base64 text: no '\' and no NUL in it. */
  lemma HashIsPlain(challenge: seq<byte>, key: seq<byte>)
    requires 1 <= |CText(challenge)| <= 65 ==> |CText(key)| > 0
    ensures Plain(Gsmsalg.Hash(challenge, key)) && 0 !in Gsmsalg.Hash(challenge, key)
  {
    var h := Gsmsalg.Hash(challenge, key);
    Gsmsalg.HashShape(challenge, key);
    forall k | 0 <= k < |h| ensures h[k] != Backslash && h[k] != 0 {
      assert Gsmsalg.IsBase64(h[k]);
    }
  }

  /** The master reads the hash back from the validate reply. */
  lemma ValidateCarriesHash(challenge: seq<byte>, key: seq<byte>)
    requires 1 <= |CText(challenge)| <= 65 ==> |CText(key)| > 0
    ensures Lookup(ValidateText(challenge, key), ValidateKey) == Some(Gsmsalg.Hash(challenge, key))
  {
    var h := Gsmsalg.Hash(challenge, key);
    HashIsPlain(challenge, key);
    var tail := [ValidateKey, h, FinalKey, [], QueryIdKey, DefaultQueryId];
    assert AllPlain(InfoHead + tail);
    LookupJoin(InfoHead + tail, ValidateKey);
    FieldAfterSkip(InfoHead, tail, ValidateKey);
  }

  /** A NUL-terminated copy of a text with no NUL in it reads back as
    * that text. */
  lemma CTextOfTerminated(s: seq<byte>, h: seq<byte>)
    requires 0 !in h && |h| < |s| && s[..|h|] == h && s[|h|] == 0
    ensures CText(s) == h
  {
  }

  /** bc_gamespy_build_validate: the gsmsalg hash of the challenge under the
    * secret key, in a validate reply; -1 exactly when it does not fit
    * below outSize. */
  method BuildValidate(out: array<byte>, outSize: int, challenge: seq<byte>, key: seq<byte>)
    returns (n: int)
    requires 0 <= outSize <= out.Length
    requires 1 <= |CText(challenge)| <= 65 ==> |CText(key)| > 0
    modifies out
    ensures n == -1 <==> |ValidateText(challenge, key)| >= outSize
    ensures n != -1 ==> n == |ValidateText(challenge, key)| && out[..n] == ValidateText(challenge, key) && out[n] == 0
    ensures out[outSize..] == old(out[outSize..])
  {
    var validate := new byte[89];
    Gsmsalg.Run(validate, challenge, key);
    HashIsPlain(challenge, key);
    CTextOfTerminated(validate[..], Gsmsalg.Hash(challenge, key));
    var text := Join(ValidateFields(CText(validate[..])));
    var ok := AppendText(out, outSize, 0, [], text);
    n := if ok then |text| else -1;
  }
}
