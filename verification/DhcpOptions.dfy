/**
 DHCP messages: their fields, the option area, the parser that walks it and the builder of client messages.

 The parser is compared with lists of options: on every encoding of a list, with padding anywhere, it finds for
 each code the last occurrence that is long enough, and on arbitrary bytes it behaves as on some list whose
 encoding the bytes start with.
 */
module DhcpOptions {
  import opened Bytes
  import opened ByteOrder

  const OPTION_END: Byte := 255
  const OPTION_MASK: Byte := 1
  const OPTION_ROUTER: Byte := 3
  const OPTION_DNS: Byte := 6
  const OPTION_LEASE: Byte := 51
  const OPTION_TYPE: Byte := 53
  const OPTION_SERVER: Byte := 54
  const AREA: nat := 312
  const MESSAGE: nat := 548

  /** The out-parameters of `dhcp_parse_options`. */
  datatype Fields = Fields(kind: Byte, server: Word, mask: Word, router: Word, dns: Word, lease: Word)

  const NO_FIELDS: Fields := Fields(0, 0, 0, 0, 0, 0)

  /** The `switch` on an option with its data. */
  function Apply(f: Fields, code: Byte, data: seq<Byte>): Fields
  {
    if code == OPTION_TYPE then if |data| >= 1 then f.(kind := data[0]) else f
    else if |data| < 4 then f
    else
      var word := Be32(data[..4]);
      if code == OPTION_SERVER then f.(server := word)
      else if code == OPTION_MASK then f.(mask := word)
      else if code == OPTION_ROUTER then f.(router := word)
      else if code == OPTION_DNS then f.(dns := word)
      else if code == OPTION_LEASE then f.(lease := word)
      else f
  }

  /** The loop of `dhcp_parse_options` from index `at` on. */
  function Parse(o: seq<Byte>, at: nat, f: Fields): Fields
    decreases |o| - at
  {
    if at >= |o| || o[at] == OPTION_END then f
    else if o[at] == 0 then Parse(o, at + 1, f)
    else if at + 1 >= |o| || at + 2 + o[at + 1] > |o| then f
    else Parse(o, at + 2 + o[at + 1], Apply(f, o[at], o[at + 2..at + 2 + o[at + 1]]))
  }

  /** `dhcp_parse_options`: every access lies inside the first `length` bytes. */
  method ParseOptions(options: seq<Byte>, length: nat, start: Fields) returns (f: Fields)
    requires length <= |options|
    ensures f == Parse(options[..length], 4, start)
  {
    f := start;
    var ptr := 4;
    ghost var o := options[..length];
    while ptr < length && options[ptr] != OPTION_END
      invariant Parse(o, ptr, f) == Parse(o, 4, start)
      decreases length - ptr
    {
      assert o[ptr] == options[ptr];
      var option := options[ptr];
      ptr := ptr + 1;
      if option != 0 {
        if ptr >= length { return; }
        var len: nat := options[ptr];
        assert o[ptr] == options[ptr];
        ptr := ptr + 1;
        if ptr + len > length { return; }
        assert o[ptr..ptr + len] == options[ptr..ptr + len];
        f := Apply(f, option, options[ptr..ptr + len]);
        ptr := ptr + len;
      }
    }
  }

  // ---- lists of options ----

  datatype Item = Pad | Opt(code: Byte, data: seq<Byte>)
  {
    predicate Fits() { Opt? ==> code != 0 && code != OPTION_END && |data| < 256 }

    function Encoded(): seq<Byte>
      requires Fits()
    {
      if Pad? then [0] else [code, |data|] + data
    }
  }

  predicate AllFit(items: seq<Item>) { forall i :: 0 <= i < |items| ==> items[i].Fits() }

  function Encode(items: seq<Item>): seq<Byte>
    requires AllFit(items)
  {
    if items == [] then [] else items[0].Encoded() + Encode(items[1..])
  }

  /** The data of the last option of that code with at least `least` bytes. */
  function LastOf(items: seq<Item>, code: Byte, least: nat): Option<seq<Byte>>
  {
    if items == [] then None
    else
      var last := items[|items| - 1];
      if last.Opt? && last.code == code && |last.data| >= least then Some(last.data)
      else LastOf(items[..|items| - 1], code, least)
  }

  function WordOf(found: Option<seq<Byte>>, otherwise: Word): Word
  {
    if found.Some? && |found.value| >= 4 then Be32(found.value[..4]) else otherwise
  }

  function KindOf(found: Option<seq<Byte>>, otherwise: Byte): Byte
  {
    if found.Some? && |found.value| >= 1 then found.value[0] else otherwise
  }

  /** What a list of options says: for every field the last occurrence wins, without one the field stays. */
  function Meaning(items: seq<Item>, f: Fields): Fields
  {
    Fields(
      KindOf(LastOf(items, OPTION_TYPE, 1), f.kind),
      WordOf(LastOf(items, OPTION_SERVER, 4), f.server),
      WordOf(LastOf(items, OPTION_MASK, 4), f.mask),
      WordOf(LastOf(items, OPTION_ROUTER, 4), f.router),
      WordOf(LastOf(items, OPTION_DNS, 4), f.dns),
      WordOf(LastOf(items, OPTION_LEASE, 4), f.lease))
  }

  lemma {:induction false} LastOfFits(items: seq<Item>, code: Byte, least: nat)
    ensures LastOf(items, code, least).Some? ==> |LastOf(items, code, least).value| >= least
  {
    if items != [] { LastOfFits(items[..|items| - 1], code, least); }
  }

  lemma {:induction false} LastOfFront(item: Item, items: seq<Item>, code: Byte, least: nat)
    ensures LastOf([item] + items, code, least) ==
            if LastOf(items, code, least).Some? then LastOf(items, code, least)
            else if item.Opt? && item.code == code && |item.data| >= least then Some(item.data) else None
    decreases |items|
  {
    var all := [item] + items;
    if items == [] {
      assert all[..|all| - 1] == [];
    } else {
      assert all[..|all| - 1] == [item] + items[..|items| - 1];
      LastOfFront(item, items[..|items| - 1], code, least);
    }
  }

  function ApplyItem(f: Fields, item: Item): Fields { if item.Pad? then f else Apply(f, item.code, item.data) }

  lemma WordFront(item: Item, items: seq<Item>, code: Byte, word: Word)
    ensures WordOf(LastOf([item] + items, code, 4), word) ==
            WordOf(LastOf(items, code, 4),
                   if item.Opt? && item.code == code && |item.data| >= 4 then Be32(item.data[..4]) else word)
  {
    LastOfFront(item, items, code, 4);
    LastOfFits(items, code, 4);
    hide LastOf, Be32;
  }

  lemma KindFront(item: Item, items: seq<Item>, kind: Byte)
    ensures KindOf(LastOf([item] + items, OPTION_TYPE, 1), kind) ==
            KindOf(LastOf(items, OPTION_TYPE, 1),
                   if item.Opt? && item.code == OPTION_TYPE && |item.data| >= 1 then item.data[0] else kind)
  {
    LastOfFront(item, items, OPTION_TYPE, 1);
    LastOfFits(items, OPTION_TYPE, 1);
    hide LastOf;
  }

  /** The meaning of a list, option by option. */
  lemma MeaningFront(item: Item, items: seq<Item>, f: Fields)
    ensures Meaning([item] + items, f) == Meaning(items, ApplyItem(f, item))
  {
    hide LastOf, Be32, WordOf, KindOf;
    KindFront(item, items, f.kind);
    WordFront(item, items, OPTION_SERVER, f.server);
    WordFront(item, items, OPTION_MASK, f.mask);
    WordFront(item, items, OPTION_ROUTER, f.router);
    WordFront(item, items, OPTION_DNS, f.dns);
    WordFront(item, items, OPTION_LEASE, f.lease);
  }

  /** The bytes `t` stand at index `at`. */
  predicate Holds(o: seq<Byte>, at: nat, t: seq<Byte>) { at + |t| <= |o| && o[at..at + |t|] == t }

  lemma HoldsSplit(o: seq<Byte>, at: nat, a: seq<Byte>, b: seq<Byte>)
    requires Holds(o, at, a + b)
    ensures Holds(o, at, a) && Holds(o, at + |a|, b)
  {
    assert o[at..at + |a|] == o[at..at + |a + b|][..|a|];
    assert o[at + |a|..at + |a| + |b|] == o[at..at + |a + b|][|a|..];
  }

  lemma HoldsJoin(o: seq<Byte>, at: nat, a: seq<Byte>, b: seq<Byte>)
    requires Holds(o, at, a) && Holds(o, at + |a|, b)
    ensures Holds(o, at, a + b)
  {
    assert o[at..at + |a + b|] == o[at..at + |a|] + o[at + |a|..at + |a| + |b|];
  }

  /** Walking over one encoded item. */
  lemma ParseItem(o: seq<Byte>, at: nat, item: Item, f: Fields)
    requires item.Fits() && Holds(o, at, item.Encoded())
    ensures Parse(o, at, f) == Parse(o, at + |item.Encoded()|, ApplyItem(f, item))
  {
    hide Apply;
    var e := item.Encoded();
    assert o[at] == o[at..at + |e|][0];
    if item.Opt? {
      assert o[at + 1] == o[at..at + |e|][1];
      assert o[at + 2..at + 2 + |item.data|] == o[at..at + |e|][2..];
    }
  }

  /** The parser stops at the end mark and at the end of the area. */
  predicate StopsAt(o: seq<Byte>, at: nat) { at == |o| || (at < |o| && o[at] == OPTION_END) }

  lemma EncodeFront(items: seq<Item>)
    requires AllFit(items)
    ensures if items == [] then Encode(items) == []
            else items[0].Fits() && AllFit(items[1..]) && Encode(items) == items[0].Encoded() + Encode(items[1..])
  {
  }

  lemma ParseStops(o: seq<Byte>, at: nat, f: Fields)
    requires StopsAt(o, at)
    ensures Parse(o, at, f) == f
  {
  }

  /** Parsing an encoded list that an end mark or the end of the area follows gives its meaning, whatever stands
      behind the end mark. */
  lemma {:induction false} ParseEncoded(o: seq<Byte>, at: nat, items: seq<Item>, f: Fields)
    requires AllFit(items) && Holds(o, at, Encode(items)) && StopsAt(o, at + |Encode(items)|)
    ensures Parse(o, at, f) == Meaning(items, f)
    decreases |items|
  {
    hide Encode, AllFit, Item.Encoded, Item.Fits, ApplyItem, Holds, Parse, StopsAt, Meaning;
    EncodeFront(items);
    if items == [] {
      ParseStops(o, at, f);
      NoMeaning(f);
    } else {
      var item, rest := items[0], items[1..];
      HoldsSplit(o, at, item.Encoded(), Encode(rest));
      ParseItem(o, at, item, f);
      ParseEncoded(o, at + |item.Encoded()|, rest, ApplyItem(f, item));
      MeaningFront(item, rest, f);
      assert [item] + rest == items;
    }
  }

  lemma NoMeaning(f: Fields)
    ensures Meaning([], f) == f
  {
  }

  /** Nothing more can be read: the end of the area, the end mark, or an option that the area cuts short. */
  predicate MustStop(o: seq<Byte>, at: nat)
  {
    at >= |o| || o[at] == OPTION_END || (o[at] != 0 && (at + 1 == |o| || at + 2 + o[at + 1] > |o|))
  }

  /** What the parser takes off arbitrary bytes in one turn. */
  lemma NextItem(o: seq<Byte>, at: nat, f: Fields) returns (item: Option<Item>)
    requires at <= |o|
    ensures item.None? ==> Parse(o, at, f) == f && MustStop(o, at)
    ensures item.Some? ==>
              && item.value.Fits() && |item.value.Encoded()| > 0 && Holds(o, at, item.value.Encoded())
              && Parse(o, at, f) == Parse(o, at + |item.value.Encoded()|, ApplyItem(f, item.value))
  {
    hide Apply;
    item := None;
    if at < |o| && o[at] != OPTION_END {
      if o[at] == 0 {
        item := Some(Pad);
      } else if at + 1 < |o| && at + 2 + o[at + 1] <= |o| {
        item := Some(Opt(o[at], o[at + 2..at + 2 + o[at + 1]]));
      }
      if item.Some? { ParseItem(o, at, item.value, f); }
    }
  }

  /** On arbitrary bytes the parser gives the meaning of some list whose encoding stands at the start, as far as there
      is anything to read. */
  lemma {:induction false} ParseIsSomeList(o: seq<Byte>, at: nat, f: Fields) returns (items: seq<Item>)
    requires at <= |o|
    ensures AllFit(items) && Holds(o, at, Encode(items)) && Parse(o, at, f) == Meaning(items, f)
    ensures MustStop(o, at + |Encode(items)|)
    decreases |o| - at
  {
    hide Parse, Meaning, ApplyItem, Item.Encoded, Item.Fits, MustStop;
    items := [];
    NoMeaning(f);
    var item := NextItem(o, at, f);
    if item.Some? {
      var e := item.value.Encoded();
      var rest := ParseIsSomeList(o, at + |e|, ApplyItem(f, item.value));
      items := [item.value] + rest;
      MeaningFront(item.value, rest, f);
      assert items[1..] == rest;
      HoldsJoin(o, at, e, Encode(rest));
    }
  }

  /** The options that the client reads, by their codes: 53 the kind of the message, 54 the server, 1 the mask, 3 the
      router, 6 the name server, 51 the lease. */
  lemma KnownOptions(kind: Byte, s: seq<Byte>, m: seq<Byte>, r: seq<Byte>, d: seq<Byte>, l: seq<Byte>, f: Fields)
    requires |s| == |m| == |r| == |d| == |l| == 4
    ensures Meaning([Opt(53, [kind]), Opt(54, s), Opt(1, m), Opt(3, r), Opt(6, d), Opt(51, l)], f) ==
            Fields(kind, Number(s), Number(m), Number(r), Number(d), Number(l))
  {
    hide Meaning, Be32;
    var items := [Opt(53, [kind]), Opt(54, s), Opt(1, m), Opt(3, r), Opt(6, d), Opt(51, l)];
    var f1 := ApplyItem(f, items[0]);
    assert f1 == f.(kind := kind);
    var f2 := WordTaken(f1, 54, s);
    var f3 := WordTaken(f2, 1, m);
    var f4 := WordTaken(f3, 3, r);
    var f5 := WordTaken(f4, 6, d);
    var f6 := WordTaken(f5, 51, l);
    NoMeaning(f6);
    MeaningFront(items[5], [], f5);
    MeaningFront(items[4], [items[5]], f4);
    MeaningFront(items[3], [items[4], items[5]], f3);
    MeaningFront(items[2], [items[3], items[4], items[5]], f2);
    MeaningFront(items[1], [items[2], items[3], items[4], items[5]], f1);
    MeaningFront(items[0], [items[1], items[2], items[3], items[4], items[5]], f);
    assert items == [items[0]] + [items[1], items[2], items[3], items[4], items[5]];
    assert [items[1]] + [items[2], items[3], items[4], items[5]] == [items[1], items[2], items[3], items[4], items[5]];
    assert [items[2]] + [items[3], items[4], items[5]] == [items[2], items[3], items[4], items[5]];
    assert [items[3]] + [items[4], items[5]] == [items[3], items[4], items[5]];
    assert [items[4]] + [items[5]] == [items[4], items[5]];
    assert [items[5]] + [] == [items[5]];
  }

  function Number(s: seq<Byte>): (x: Word)
    requires |s| == 4
  {
    var a: nat, b: nat, c: nat, d: nat := s[0], s[1], s[2], s[3];
    ((a * 256 + b) * 256 + c) * 256 + d
  }

  lemma WordTaken(f: Fields, code: Byte, w: seq<Byte>) returns (f': Fields)
    requires |w| == 4 && code in {54, 1, 3, 6, 51}
    ensures f' == ApplyItem(f, Opt(code, w))
    ensures f' == (if code == 54 then f.(server := Number(w)) else if code == 1 then f.(mask := Number(w))
                   else if code == 3 then f.(router := Number(w)) else if code == 6 then f.(dns := Number(w))
                   else f.(lease := Number(w)))
  {
    assert w[..4] == w;
    f' := ApplyItem(f, Opt(code, w));
  }

  /** All other options, and those that are too short, say nothing. */
  lemma OtherOptions(f: Fields, code: Byte, data: seq<Byte>)
    requires code !in {53, 54, 1, 3, 6, 51} || data == [] || (code != 53 && |data| < 4)
    ensures ApplyItem(f, Opt(code, data)) == f
  {
  }

  // ---- messages ----

  function Opcode(p: seq<Byte>): Byte requires |p| >= MESSAGE { p[0] }

  /** The transaction id, as `ntohl` of the stored word. */
  function XidOf(p: seq<Byte>): (x: nat)
    requires |p| >= MESSAGE
    ensures x < WORD
  {
    Htonl(De32(p[4..8]))
  }

  function YourAddress(p: seq<Byte>): (x: nat)
    requires |p| >= MESSAGE
    ensures x < WORD
  {
    Htonl(De32(p[16..20]))
  }

  function OptionArea(p: seq<Byte>): (o: seq<Byte>)
    requires |p| >= MESSAGE
    ensures |o| == AREA
  {
    p[236..548]
  }

  function Options(p: seq<Byte>): Fields
    requires |p| >= MESSAGE
  {
    Parse(OptionArea(p), 4, NO_FIELDS)
  }

  const COOKIE: seq<Byte> := [99, 130, 83, 99]

  /** The options of a client message. */
  function ClientItems(kind: Byte, mac: seq<Byte>): (items: seq<Item>)
    requires |mac| == 6
    ensures AllFit(items)
  {
    [Opt(OPTION_TYPE, [kind]), Opt(55, [1, 3, 6, 15]), Opt(61, [1] + mac)]
  }

  /** The message of `dhcp_create_packet`. */
  ghost predicate ClientMessage(p: seq<Byte>, xid: nat, kind: Byte, mac: seq<Byte>)
    requires xid < WORD && |mac| == 6
  {
    && |p| == MESSAGE && p[..4] == [1, 1, 6, 0] && p[4..8] == Le32(Htonl(xid)) && p[10..12] == [0x80, 0]
    && p[28..34] == mac
    && OptionArea(p)[..23] == COOKIE + Encode(ClientItems(kind, mac)) + [OPTION_END]
    && forall k :: 8 <= k < 10 || 12 <= k < 28 || 34 <= k < 236 || 259 <= k < MESSAGE ==> p[k] == 0
  }

  lemma ClientEncoding(kind: Byte, mac: seq<Byte>)
    requires |mac| == 6
    ensures COOKIE + Encode(ClientItems(kind, mac)) + [OPTION_END] ==
            COOKIE + [OPTION_TYPE, 1, kind] + [55, 4, 1, 3, 6, 15] + [61, 7, 1] + mac + [OPTION_END]
  {
    var a, b, c := Opt(OPTION_TYPE, [kind]), Opt(55, [1, 3, 6, 15]), Opt(61, [1] + mac);
    assert ClientItems(kind, mac)[1..] == [b, c] && [b, c][1..] == [c] && [c][1..] == [];
    EncodeFront(ClientItems(kind, mac));
    EncodeFront([b, c]);
    EncodeFront([c]);
    assert Encode([]) == [];
    hide Encode;
    assert c.Encoded() == [61, 7] + ([1] + mac) && b.Encoded() == [55, 4] + [1, 3, 6, 15]
        && a.Encoded() == [OPTION_TYPE, 1] + [kind];
  }

  /** The fixed fields. The words are stored in network order; the flags ask for a broadcast reply. */
  method CreateHeader(p: array<Byte>, xid: nat, mac: seq<Byte>)
    requires p.Length == MESSAGE && xid < WORD && |mac| == 6 && forall k :: 0 <= k < MESSAGE ==> p[k] == 0
    modifies p
    ensures p[..4] == [1, 1, 6, 0] && p[4..8] == Le32(Htonl(xid)) && p[10..12] == [0x80, 0] && p[28..34] == mac
    ensures forall k :: 8 <= k < 10 || 12 <= k < 28 || 34 <= k < MESSAGE ==> p[k] == 0
  {
    hide Le32, Htonl;
    Poke(p, 0, [1, 1, 6, 0]);
    Poke(p, 4, Le32(Htonl(xid)));
    Poke(p, 10, [0x80, 0]);
    Poke(p, 28, mac);
  }

  /** `dhcp_create_packet`. */
  method CreateMessage(xid: nat, kind: Byte, mac: seq<Byte>) returns (p: array<Byte>)
    requires xid < WORD && |mac| == 6
    ensures fresh(p) && ClientMessage(p[..], xid, kind, mac)
  {
    hide Le32, Htonl, Encode;
    p := new Byte[MESSAGE](_ => 0);
    CreateHeader(p, xid, mac);
    ClientEncoding(kind, mac);
    var o := COOKIE + [OPTION_TYPE, 1, kind] + [55, 4, 1, 3, 6, 15] + [61, 7, 1] + mac + [OPTION_END];
    ghost var header := p[..];
    Poke(p, 236, o);
    AreaPut(header, o);
  }

  lemma AreaPut(header: seq<Byte>, o: seq<Byte>)
    requires |header| == MESSAGE && |o| == 23
    ensures var p := Splice(header, 236, o);
            && OptionArea(p)[..23] == o && p[..236] == header[..236] && p[259..] == header[259..]
            && p[..4] == header[..4] && p[4..8] == header[4..8] && p[10..12] == header[10..12]
            && p[28..34] == header[28..34]
  {
  }

  /** The message byte by byte: the id with its most significant byte first, the address behind the fixed fields and in
      the client identifier, the cookie, and the options 53, 55, 61 and 255. */
  lemma ClientMessageIs(p: seq<Byte>, xid: nat, kind: Byte, mac: seq<Byte>)
    requires xid < WORD && |mac| == 6 && ClientMessage(p, xid, kind, mac)
    ensures |p| == 548 && p[..4] == [1, 1, 6, 0] && xid == Four(p[4], p[5], p[6], p[7])
    ensures p[8..12] == [0, 0, 0x80, 0] && p[12..28] == Zeros(16) && p[28..34] == mac && p[34..236] == Zeros(202)
    ensures p[236..259] == [99, 130, 83, 99, 53, 1, kind, 55, 4, 1, 3, 6, 15, 61, 7, 1] + mac + [255]
    ensures p[259..] == Zeros(289)
  {
    ClientEncoding(kind, mac);
    MessageId(p[4..8], xid);
    hide De32, Le32, Htonl, Encode;
    assert p[8..12] == p[8..10] + p[10..12] && p[8..10] == [0, 0];
    assert p[236..259] == OptionArea(p)[..23];
  }

  lemma MessageId(b: seq<Byte>, xid: nat)
    requires |b| == 4 && xid < WORD && b == Le32(Htonl(xid))
    ensures xid == Four(b[0], b[1], b[2], b[3])
  {
    De32OfLe32(Htonl(xid));
    HtonlTwice(xid);
    SwappedLoad(b);
    hide De32, Le32, Htonl;
  }

  /** Parsing what the client builds returns its message type and leaves everything else alone; the message
      carries the id it was built with, and the client would not take it for a reply. */
  lemma ClientMessageReads(p: seq<Byte>, xid: nat, kind: Byte, mac: seq<Byte>, f: Fields)
    requires xid < WORD && |mac| == 6 && ClientMessage(p, xid, kind, mac)
    ensures Parse(OptionArea(p), 4, f) == f.(kind := kind)
    ensures XidOf(p) == xid && Opcode(p) != 2
  {
    var items, o := ClientItems(kind, mac), OptionArea(p);
    assert p[0] == p[..4][0];
    De32OfLe32(Htonl(xid));
    HtonlTwice(xid);
    ClientEncoding(kind, mac);
    assert o[4..22] == o[..23][4..22];
    assert o[22] == o[..23][22];
    assert o[4..22] == Encode(items);
    hide Encode, Parse;
    ParseEncoded(o, 4, items, f);
    ClientMeaning(kind, mac, f);
  }

  lemma ClientMeaning(kind: Byte, mac: seq<Byte>, f: Fields)
    requires |mac| == 6
    ensures Meaning(ClientItems(kind, mac), f) == f.(kind := kind)
  {
    var a, b, c := Opt(OPTION_TYPE, [kind]), Opt(55, [1, 3, 6, 15]), Opt(61, [1] + mac);
    MeaningFront(a, [b, c], f);
    assert [a] + [b, c] == ClientItems(kind, mac);
    var f1 := ApplyItem(f, a);
    MeaningFront(b, [c], f1);
    assert [b] + [c] == [b, c];
    MeaningFront(c, [], f1);
    assert [c] + [] == [c];
    NoMeaning(f1);
  }
}
