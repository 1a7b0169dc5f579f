/** Solana Pay transfer requests: the rest of crates/kiosk-core/src/pay.rs. */
module Url {
  import opened Wrappers
  import Base58
  import Amount

  datatype PayError = BadRecipient | BadMint | BadReference | BadAmount

  datatype TransferRequest = TransferRequest(
    recipient: string,
    amount: string,
    splToken: Option<string>,
    reference: Option<string>,
    label_: Option<Text>,
    message: Option<Text>,
    memo: Option<Text>)

  /** `TransferRequest::new`. */
  function NewRequest(recipient: string, amount: string, decimals: byte, maxAmount: string,
                      splToken: Option<string>, reference: Option<string>,
                      label_: Option<Text>, message: Option<Text>, memo: Option<Text>)
    : Result<TransferRequest, PayError>
  {
    if !Base58.IsPubkey(recipient) then Err(BadRecipient)
    else if splToken.Some? && !Base58.IsPubkey(splToken.value) then Err(BadMint)
    else if reference.Some? && !Base58.IsPubkey(reference.value) then Err(BadReference)
    else match Amount.ValidateAmount(amount, decimals, maxAmount)
      case None => Err(BadAmount)
      case Some(a) => Ok(TransferRequest(recipient, a, splToken, reference, label_, message, memo))
  }

  // ---- Percent encoding --------------------------------------------------------------------

  predicate Unreserved(c: char) {
    'A' <= c <= 'Z' || 'a' <= c <= 'z' || '0' <= c <= '9' || c == '-' || c == '.' || c == '_' || c == '~'
  }

  function HexDigit(n: nat): (c: char)
    requires n < 16
    ensures Unreserved(c) && HexValue(c) == Some(n)
  {
    if n < 10 then '0' + n as char else 'A' + (n - 10) as char
  }

  function HexValue(c: char): Option<nat> {
    if '0' <= c <= '9' then Some(c as int - '0' as int)
    else if 'A' <= c <= 'F' then Some(c as int - 'A' as int + 10)
    else if 'a' <= c <= 'f' then Some(c as int - 'a' as int + 10)
    else None
  }

  function EncodeByte(c: char): string
    requires c as int < 256
  {
    if Unreserved(c) then [c] else ['%', HexDigit(c as int / 16), HexDigit(c as int % 16)]
  }

  function PctEncodeSpec(s: Text): string {
    if s == "" then "" else EncodeByte(s[0]) + PctEncodeSpec(s[1..])
  }

  method PctEncode(s: Text) returns (out: string)
    ensures out == PctEncodeSpec(s)
  {
    hide PctEncodeSpec;
    out := "";
    EncodeFrom(s, 0);
    for i := 0 to |s|
      invariant PctEncodeSpec(s) == out + PctEncodeSpec(s[i..])
    {
      EncodeFrom(s, i);
      Associative(out, EncodeByte(s[i]), PctEncodeSpec(s[i + 1..]));
      if Unreserved(s[i]) {
        out := out + [s[i]];
      } else {
        out := out + ['%', HexDigit(s[i] as int / 16), HexDigit(s[i] as int % 16)];
      }
    }
    EncodeFrom(s, |s|);
    assert out + "" == out;
  }

  lemma Associative(a: string, b: string, c: string)
    ensures a + (b + c) == (a + b) + c
  {
  }

  lemma {:induction false} EncodeConcat(a: Text, b: Text)
    ensures PctEncodeSpec(a + b) == PctEncodeSpec(a) + PctEncodeSpec(b)
  {
    hide PctEncodeSpec, EncodeByte;
    if a == "" {
      assert a + b == b;
      EncodeNone();
    } else {
      var tail := a[1..];
      EncodeConcat(tail, b);
      EncodeFrom(a, 0);
      EncodeFrom(a + b, 0);
      assert (a + b)[1..] == tail + b && (a + b)[0] == a[0];
      Associative(EncodeByte(a[0]), PctEncodeSpec(tail), PctEncodeSpec(b));
    }
  }

  lemma EncodeNone()
    ensures PctEncodeSpec("") == ""
  {
  }

  /** What an encoded text says, byte by byte: letters, digits and four marks as they are, the rest escaped. */
  lemma EncodeWrites(a: Text, c: char, b: Text)
    requires c as int < 256
    ensures PctEncodeSpec(a + [c] + b) ==
            PctEncodeSpec(a)
            + (if 'A' <= c <= 'Z' || 'a' <= c <= 'z' || '0' <= c <= '9' || c == '-' || c == '.' || c == '_' || c == '~' then [c]
               else ['%', "0123456789ABCDEF"[c as int / 16], "0123456789ABCDEF"[c as int % 16]])
            + PctEncodeSpec(b)
  {
    hide PctEncodeSpec, EncodeByte, Unreserved;
    EncodeConcat(a, [c]);
    EncodeConcat(a + [c], b);
    EncodeOne(c);
    ByteIs(c);
  }

  lemma EncodeOne(c: char)
    requires c as int < 256
    ensures PctEncodeSpec([c]) == EncodeByte(c)
  {
    hide EncodeByte;
    EncodeNone();
    assert [c][1..] == "";
    assert EncodeByte(c) + "" == EncodeByte(c);
  }

  lemma ByteIs(c: char)
    requires c as int < 256
    ensures EncodeByte(c) ==
            if 'A' <= c <= 'Z' || 'a' <= c <= 'z' || '0' <= c <= '9' || c == '-' || c == '.' || c == '_' || c == '~' then [c]
            else ['%', "0123456789ABCDEF"[c as int / 16], "0123456789ABCDEF"[c as int % 16]]
  {
    HexIs(c as int / 16);
    HexIs(c as int % 16);
  }

  lemma EncodeFrom(s: Text, i: nat)
    requires i <= |s|
    ensures PctEncodeSpec(s[i..]) == if i < |s| then EncodeByte(s[i]) + PctEncodeSpec(s[i + 1..]) else ""
    ensures i == 0 ==> PctEncodeSpec(s) == "" + PctEncodeSpec(s[i..])
  {
    assert i < |s| ==> s[i..][1..] == s[i + 1..];
    assert s[0..] == s;
  }

  /**
   * Percent-decoding (section 2.1 of RFC 3986), leaving a stray `%` alone. A browser's query
   * parser also turns `+` into a space: `plus` selects that.
   */
  function PctDecode(s: string, plus: bool): string {
    if s == "" then ""
    else if |s| >= 3 && s[0] == '%' && HexValue(s[1]).Some? && HexValue(s[2]).Some? then
      [(HexValue(s[1]).value * 16 + HexValue(s[2]).value) as char] + PctDecode(s[3..], plus)
    else [if plus && s[0] == '+' then ' ' else s[0]] + PctDecode(s[1..], plus)
  }

  lemma {:induction false} DecodeOfEncode(s: Text, plus: bool)
    ensures PctDecode(PctEncodeSpec(s), plus) == s
  {
    if s != "" {
      DecodeOfEncode(s[1..], plus);
      DecodeByte(s[0], PctEncodeSpec(s[1..]), plus);
      assert s == [s[0]] + s[1..];
    }
  }

  lemma DecodeByte(c: char, rest: string, plus: bool)
    requires c as int < 256
    ensures PctDecode(EncodeByte(c) + rest, plus) == [c] + PctDecode(rest, plus)
  {
    var e := EncodeByte(c);
    assert (e + rest)[|e|..] == rest;
    if !Unreserved(c) {
      var hi, lo: nat := c as int / 16, c as int % 16;
      assert hi * 16 + lo == c as int;
      assert (e + rest)[0] == '%' && HexValue((e + rest)[1]) == Some(hi) && HexValue((e + rest)[2]) == Some(lo);
    }
  }

  // ---- Rendering ---------------------------------------------------------------------------

  /** One query parameter, its value already encoded. */
  datatype Param = Param(name: string, value: string)

  function Optional(name: string, value: Option<string>): seq<Param> {
    if value.Some? then [Param(name, value.value)] else []
  }

  function Encoded(t: Option<Text>): Option<string> {
    if t.Some? then Some(PctEncodeSpec(t.value)) else None
  }

  function Params(r: TransferRequest): seq<Param> {
    [Param("amount", r.amount)]
    + Optional("spl-token", r.splToken)
    + Optional("reference", r.reference)
    + Optional("label", Encoded(r.label_))
    + Optional("message", Encoded(r.message))
    + Optional("memo", Encoded(r.memo))
  }

  /** `name=value` pairs, each introduced by `&`. */
  function Join(ps: seq<Param>): string {
    if ps == [] then "" else "&" + ps[0].name + "=" + ps[0].value + Join(ps[1..])
  }

  function UrlSpec(r: TransferRequest): string {
    "solana:" + r.recipient + "?" + Join(Params(r))[1..]
  }

  lemma {:induction false} JoinConcat(ps: seq<Param>, qs: seq<Param>)
    ensures Join(ps + qs) == Join(ps) + Join(qs)
  {
    if ps == [] {
      assert ps + qs == qs;
    } else {
      JoinConcat(ps[1..], qs);
      assert (ps + qs)[1..] == ps[1..] + qs;
      Associative("&" + ps[0].name + "=" + ps[0].value, Join(ps[1..]), Join(qs));
    }
  }

  method Url(r: TransferRequest) returns (url: string)
    ensures url == UrlSpec(r)
  {
    hide Join;
    ghost var start := "solana:" + r.recipient + "?";
    url := "solana:" + r.recipient + "?amount=" + r.amount;
    ghost var ps := [Param("amount", r.amount)];
    JoinOne(ps[0]);
    assert url == start + Join(ps)[1..];
    url := AppendOptional(url, "spl-token", r.splToken, start, ps);
    ps := ps + Optional("spl-token", r.splToken);
    url := AppendOptional(url, "reference", r.reference, start, ps);
    ps := ps + Optional("reference", r.reference);
    url := AppendText(url, "label", r.label_, start, ps);
    ps := ps + Optional("label", Encoded(r.label_));
    url := AppendText(url, "message", r.message, start, ps);
    ps := ps + Optional("message", Encoded(r.message));
    url := AppendText(url, "memo", r.memo, start, ps);
  }

  lemma JoinOne(p: Param)
    ensures Join([p]) == "&" + p.name + "=" + p.value
  {
    assert [p][1..] == [];
    assert Join([p]) == "&" + p.name + "=" + p.value + "";
  }

  /** `push_str("&name=")` and the value, when there is one. */
  method AppendOptional(url: string, name: string, value: Option<string>, ghost start: string, ghost ps: seq<Param>)
    returns (out: string)
    requires ps != [] && url == start + Join(ps)[1..]
    ensures out == start + Join(ps + Optional(name, value))[1..]
  {
    hide Join;
    out := url;
    if value.Some? {
      ghost var p := Param(name, value.value);
      JoinConcat(ps, [p]);
      JoinOne(p);
      JoinNonempty(ps);
      out := out + "&" + name + "=";
      out := out + value.value;
    } else {
      assert ps + [] == ps;
    }
  }

  method AppendText(url: string, name: string, value: Option<Text>, ghost start: string, ghost ps: seq<Param>)
    returns (out: string)
    requires ps != [] && url == start + Join(ps)[1..]
    ensures out == start + Join(ps + Optional(name, Encoded(value)))[1..]
  {
    hide Join;
    var encoded: Option<string> := None;
    if value.Some? {
      var e := PctEncode(value.value);
      encoded := Some(e);
    }
    out := AppendOptional(url, name, encoded, start, ps);
  }

  lemma JoinNonempty(ps: seq<Param>)
    requires ps != []
    ensures |Join(ps)| >= 1 && Join(ps)[0] == '&'
  {
  }

  // ---- Parsing -----------------------------------------------------------------------------

  /** Index of the first `c`, or the length. */
  function Find(s: string, c: char): (i: nat)
    ensures i <= |s| && (i < |s| ==> s[i] == c)
  {
    if s == "" || s[0] == c then 0 else 1 + Find(s[1..], c)
  }

  function ParseParam(piece: string, plus: bool): Param {
    var i := Find(piece, '=');
    Param(PctDecode(piece[..i], plus), if i < |piece| then PctDecode(piece[i + 1..], plus) else "")
  }

  /** Query parameters in order: split on `&`, then on the first `=`, then decode. */
  function ParseQuery(q: string, plus: bool): seq<Param> {
    var i := Find(q, '&');
    if i == |q| then (if q == "" then [] else [ParseParam(q, plus)])
    else (if i == 0 then [] else [ParseParam(q[..i], plus)]) + ParseQuery(q[i + 1..], plus)
  }

  datatype Parsed = Parsed(path: string, params: seq<Param>, hash: string)

  function Lower(s: string): (t: string)
    ensures |t| == |s|
  {
    seq(|s|, i requires 0 <= i < |s| => if 'A' <= s[i] <= 'Z' then (s[i] as int + 32) as char else s[i])
  }

  /** A `solana:` URL, its scheme in any case, cut at `#` and then at the first `?`. */
  function ParseUrl(u: string, plus: bool): Option<Parsed> {
    if |u| < 7 || Lower(u[..7]) != "solana:" then None else
    var rest := u[7..];
    var h := Find(rest, '#');
    var body := rest[..h];
    var q := Find(body, '?');
    Some(Parsed(body[..q], if q < |body| then ParseQuery(body[q + 1..], plus) else [], rest[h..]))
  }

  /** Exactly the texts that begin with the scheme, in any case, are such URLs. */
  lemma SchemeIff(u: string, plus: bool)
    ensures ParseUrl(u, plus).Some? <==>
            |u| >= 7 && u[0] in {'s', 'S'} && u[1] in {'o', 'O'} && u[2] in {'l', 'L'} && u[3] in {'a', 'A'} && u[4] in {'n', 'N'}
            && u[5] in {'a', 'A'} && u[6] == ':'
  {
    hide ParseQuery, Find;
    if |u| >= 7 {
      var s, t := u[..7], "solana:";
      assert forall i :: 0 <= i < 7 ==> s[i] == u[i];
      assert Lower(s) == t <==> forall i :: 0 <= i < 7 ==> Lower(s)[i] == t[i];
      assert Lower(s) == t <==>
        Lower(s)[0] == 's' && Lower(s)[1] == 'o' && Lower(s)[2] == 'l' && Lower(s)[3] == 'a' && Lower(s)[4] == 'n' && Lower(s)[5] == 'a'
        && Lower(s)[6] == ':';
    }
  }

  /** A parameter without a value is one with an empty value, and nothing between two `&` is no parameter. */
  lemma BareParams(name: string, rest: string, plus: bool)
    requires Literal(name)
    ensures name != "" ==> ParseQuery(name, plus) == [Param(name, "")]
    ensures ParseQuery(name + "&" + rest, plus) == (if name == "" then [] else [Param(name, "")]) + ParseQuery(rest, plus)
  {
    FindIs(name, '=', |name|);
    FindIs(name, '&', |name|);
    assert name[..|name|] == name;
    LiteralDecodes(name, plus);
    var q := name + "&" + rest;
    FindIs(q, '&', |name|);
    assert q[..|name|] == name && q[|name| + 1..] == rest;
  }

  /** An escape stands for its byte, its digits in either case; a plus sign for a space if that is asked for. */
  lemma DecodeReads(hi: nat, lo: nat, upper: bool, rest: string, plus: bool)
    requires hi < 16 && lo < 16
    ensures var digits := if upper then "0123456789ABCDEF" else "0123456789abcdef";
            PctDecode(['%', digits[hi], digits[lo]] + rest, plus) == [(hi * 16 + lo) as char] + PctDecode(rest, plus)
    ensures PctDecode("+" + rest, plus) == (if plus then " " else "+") + PctDecode(rest, plus)
  {
    var digits := if upper then "0123456789ABCDEF" else "0123456789abcdef";
    HexReads(hi, upper);
    HexReads(lo, upper);
    hide HexValue;
    var e := ['%', digits[hi], digits[lo]];
    assert (e + rest)[3..] == rest;
    assert ("+" + rest)[1..] == rest;
  }

  lemma HexReads(n: nat, upper: bool)
    requires n < 16
    ensures HexValue((if upper then "0123456789ABCDEF" else "0123456789abcdef")[n]) == Some(n)
  {
  }

  // ---- Round trip --------------------------------------------------------------------------

  /** What a wallet should see: the same parameters with their text unencoded. */
  function PlainParams(r: TransferRequest): seq<Param> {
    [Param("amount", r.amount)]
    + Optional("spl-token", r.splToken)
    + Optional("reference", r.reference)
    + Optional("label", r.label_)
    + Optional("message", r.message)
    + Optional("memo", r.memo)
  }

  /** No character that a URL parser cuts at or decodes, `%` apart. */
  predicate Opaque(s: string) {
    forall i :: 0 <= i < |s| ==> Unreserved(s[i]) || s[i] == '%'
  }

  predicate Literal(s: string) {
    forall i :: 0 <= i < |s| ==> Unreserved(s[i])
  }

  lemma {:induction false} FindIs(s: string, c: char, i: nat)
    requires i <= |s| && (forall j :: 0 <= j < i ==> s[j] != c) && (i < |s| ==> s[i] == c)
    ensures Find(s, c) == i
  {
    if i > 0 {
      FindIs(s[1..], c, i - 1);
    }
  }

  lemma {:induction false} LiteralDecodes(s: string, plus: bool)
    requires Literal(s)
    ensures PctDecode(s, plus) == s
  {
    if s != "" {
      LiteralDecodes(s[1..], plus);
      assert s[0] != '%' && s[0] != '+';
      assert s == [s[0]] + s[1..];
    }
  }

  lemma {:induction false} EncodedIsOpaque(s: Text)
    ensures Opaque(PctEncodeSpec(s))
  {
    if s != "" {
      EncodedIsOpaque(s[1..]);
    }
  }

  function Decoded(ps: seq<Param>, plus: bool): seq<Param> {
    if ps == [] then [] else [Param(ps[0].name, PctDecode(ps[0].value, plus))] + Decoded(ps[1..], plus)
  }

  predicate Clean(ps: seq<Param>) {
    forall i :: 0 <= i < |ps| ==> ps[i].name != "" && Literal(ps[i].name) && Opaque(ps[i].value)
  }

  /** Parsing the joined parameters gives them back, decoded. */
  lemma {:induction false} QueryBack(ps: seq<Param>, plus: bool)
    requires ps != [] && Clean(ps)
    ensures ParseQuery(Join(ps)[1..], plus) == Decoded(ps, plus)
  {
    hide ParseQuery, ParseParam, PctDecode, Literal, Opaque;
    var p, rest := ps[0], ps[1..];
    var piece := p.name + "=" + p.value;
    PieceBack(p, plus);
    JoinFront(ps);
    if rest == [] {
      assert piece + "" == piece;
      OnePiece(piece, plus);
    } else {
      JoinNonempty(rest);
      hide Join;
      assert Join(rest) == "&" + Join(rest)[1..];
      Associative(piece, "&", Join(rest)[1..]);
      MorePieces(piece, Join(rest)[1..], plus);
      QueryBack(rest, plus);
    }
  }

  lemma JoinFront(ps: seq<Param>)
    requires ps != []
    ensures Join(ps)[1..] == ps[0].name + "=" + ps[0].value + Join(ps[1..])
  {
    var rest := Join(ps[1..]);
    assert Join(ps) == "&" + ps[0].name + "=" + ps[0].value + rest;
    hide Join;
    DropFirst("&", ps[0].name, "=", ps[0].value, rest);
  }

  lemma DropFirst(a: string, b: string, c: string, d: string, e: string)
    requires |a| == 1
    ensures (a + b + c + d + e)[1..] == b + c + d + e
  {
    assert a + b + c + d + e == a + (b + c + d + e);
  }

  lemma OnePiece(piece: string, plus: bool)
    requires piece != "" && forall j :: 0 <= j < |piece| ==> piece[j] != '&'
    ensures ParseQuery(piece, plus) == [ParseParam(piece, plus)]
  {
    FindIs(piece, '&', |piece|);
  }

  lemma MorePieces(piece: string, rest: string, plus: bool)
    requires piece != "" && forall j :: 0 <= j < |piece| ==> piece[j] != '&'
    ensures ParseQuery(piece + "&" + rest, plus) == [ParseParam(piece, plus)] + ParseQuery(rest, plus)
  {
    var q := piece + "&" + rest;
    FindIs(q, '&', |piece|);
    assert q[..|piece|] == piece && q[|piece| + 1..] == rest;
  }

  lemma PieceBack(p: Param, plus: bool)
    requires p.name != "" && Literal(p.name) && Opaque(p.value)
    ensures ParseParam(p.name + "=" + p.value, plus) == Param(p.name, PctDecode(p.value, plus))
    ensures var piece := p.name + "=" + p.value; piece != "" && forall j :: 0 <= j < |piece| ==> piece[j] != '&'
  {
    var piece := p.name + "=" + p.value;
    FindIs(piece, '=', |p.name|);
    assert piece[..|p.name|] == p.name && piece[|p.name| + 1..] == p.value;
    LiteralDecodes(p.name, plus);
  }

  lemma {:induction false} JoinSafe(ps: seq<Param>)
    requires Clean(ps)
    ensures forall j :: 0 <= j < |Join(ps)| ==> Join(ps)[j] != '#'
  {
    if ps != [] {
      JoinSafe(ps[1..]);
    }
  }

  lemma DecodedCons(p: Param, ps: seq<Param>, plus: bool)
    ensures Decoded([p] + ps, plus) == [Param(p.name, PctDecode(p.value, plus))] + Decoded(ps, plus)
  {
    hide PctDecode;
    assert ([p] + ps)[1..] == ps;
  }

  lemma Grouped(a: seq<Param>, b: seq<Param>, c: seq<Param>)
    ensures a + (b + c) == a + b + c
  {
  }

  lemma {:induction false} DecodedConcat(ps: seq<Param>, qs: seq<Param>, plus: bool)
    ensures Decoded(ps + qs, plus) == Decoded(ps, plus) + Decoded(qs, plus)
  {
    hide PctDecode;
    if ps == [] {
      assert ps + qs == qs;
    } else {
      DecodedConcat(ps[1..], qs, plus);
      DecodedCons(ps[0], ps[1..], plus);
      DecodedCons(ps[0], ps[1..] + qs, plus);
      assert [ps[0]] + ps[1..] == ps && [ps[0]] + (ps[1..] + qs) == ps + qs;
      hide Decoded;
      Grouped([Param(ps[0].name, PctDecode(ps[0].value, plus))], Decoded(ps[1..], plus), Decoded(qs, plus));
    }
  }

  /** A request whose fields print without escapes, as `TransferRequest::new` makes them. */
  predicate Printable(r: TransferRequest) {
    && Literal(r.recipient) && Literal(r.amount)
    && (r.splToken.Some? ==> Literal(r.splToken.value))
    && (r.reference.Some? ==> Literal(r.reference.value))
  }

  lemma OptionalDecoded(name: string, value: Option<string>, plus: bool)
    requires value.Some? ==> Literal(value.value)
    ensures Decoded(Optional(name, value), plus) == Optional(name, value)
  {
    if value.Some? {
      LiteralDecodes(value.value, plus);
      assert [Param(name, value.value)][1..] == [];
    }
  }

  lemma TextDecoded(name: string, value: Option<Text>, plus: bool)
    ensures Decoded(Optional(name, Encoded(value)), plus) == Optional(name, value)
  {
    if value.Some? {
      DecodeOfEncode(value.value, plus);
      assert [Param(name, PctEncodeSpec(value.value))][1..] == [];
    }
  }

  lemma ParamsDecoded(r: TransferRequest, plus: bool)
    requires Printable(r)
    ensures Decoded(Params(r), plus) == PlainParams(r)
  {
    hide Decoded, Optional, PctDecode, Encoded, Literal;
    var a, b, c := [Param("amount", r.amount)], Optional("spl-token", r.splToken), Optional("reference", r.reference);
    var d, e, f := Optional("label", Encoded(r.label_)), Optional("message", Encoded(r.message)), Optional("memo", Encoded(r.memo));
    DecodedConcat(a + b + c + d + e, f, plus);
    DecodedConcat(a + b + c + d, e, plus);
    DecodedConcat(a + b + c, d, plus);
    DecodedConcat(a + b, c, plus);
    DecodedConcat(a, b, plus);
    AmountDecoded(r.amount, plus);
    OptionalDecoded("spl-token", r.splToken, plus);
    OptionalDecoded("reference", r.reference, plus);
    TextDecoded("label", r.label_, plus);
    TextDecoded("message", r.message, plus);
    TextDecoded("memo", r.memo, plus);
  }

  lemma AmountDecoded(amount: string, plus: bool)
    requires Literal(amount)
    ensures Decoded([Param("amount", amount)], plus) == [Param("amount", amount)]
  {
    LiteralDecodes(amount, plus);
    assert [Param("amount", amount)][1..] == [];
  }

  lemma ParamsClean(r: TransferRequest)
    requires Printable(r)
    ensures Clean(Params(r))
  {
    LiteralNames();
    CleanOptional("spl-token", r.splToken);
    CleanOptional("reference", r.reference);
    CleanText("label", r.label_);
    CleanText("message", r.message);
    CleanText("memo", r.memo);
    assert Clean([Param("amount", r.amount)]);
    hide Literal, Opaque, Optional, Encoded;
  }

  lemma LiteralNames()
    ensures Literal("amount") && Literal("spl-token") && Literal("reference")
    ensures Literal("label") && Literal("message") && Literal("memo")
  {
  }

  lemma CleanOptional(name: string, value: Option<string>)
    requires name != "" && Literal(name) && (value.Some? ==> Literal(value.value))
    ensures Clean(Optional(name, value))
  {
  }

  lemma CleanText(name: string, value: Option<Text>)
    requires name != "" && Literal(name)
    ensures Clean(Optional(name, Encoded(value)))
  {
    if value.Some? {
      EncodedIsOpaque(value.value);
    }
  }

  /** Parsing a rendered request recovers its recipient and every field, free text included. */
  lemma UrlRoundTrip(r: TransferRequest, plus: bool)
    requires Printable(r)
    ensures ParseUrl(UrlSpec(r), plus) == Some(Parsed(r.recipient, PlainParams(r), ""))
  {
    var ps := Params(r);
    ParamsClean(r);
    ParamsDecoded(r, plus);
    QueryBack(ps, plus);
    JoinSafe(ps);
    JoinNonempty(ps);
    hide Join, Params, PlainParams, ParseQuery, ParseUrl, Clean, Decoded;
    CutUrl(r.recipient, Join(ps)[1..], plus);
  }

  lemma CutUrl(path: string, q: string, plus: bool)
    requires Literal(path) && forall j :: 0 <= j < |q| ==> q[j] != '#'
    ensures ParseUrl("solana:" + path + "?" + q, plus) == Some(Parsed(path, ParseQuery(q, plus), ""))
  {
    CutAt(path, q);
    hide ParseQuery, Find;
    assert Lower("solana:") == "solana:";
  }

  /** Where a URL is cut: at no `#`, and at the `?` after its path. */
  lemma CutAt(path: string, q: string)
    requires Literal(path) && forall j :: 0 <= j < |q| ==> q[j] != '#'
    ensures var u, rest := "solana:" + path + "?" + q, path + "?" + q;
            && |u| >= 7 && u[..7] == "solana:" && u[7..] == rest
            && Find(rest, '#') == |rest| && rest[..|rest|] == rest && rest[|rest|..] == ""
            && Find(rest, '?') == |path| && rest[..|path|] == path && rest[|path| + 1..] == q
  {
    var rest := path + "?" + q;
    assert "solana:" + path + "?" + q == "solana:" + rest;
    FindIs(rest, '#', |rest|);
    FindIs(rest, '?', |path|);
  }

  lemma PubkeyLiteral(s: string)
    requires Base58.IsPubkey(s)
    ensures Literal(s)
  {
    forall i | 0 <= i < |s| ensures Unreserved(s[i]) {
      assert Base58.DigitOf(s[i]).Some?;
    }
  }

  lemma AmountLiteral(a: string)
    requires Amount.ClaimPattern(a)
    ensures Literal(a)
  {
    var i := Amount.PointAt(a);
    forall j | 0 <= j < |a| ensures Unreserved(a[j]) {
      if j < i {
        assert Amount.IsDigit(a[..i][j]);
      } else if j > i {
        assert Amount.IsDigit(a[i + 1..][j - i - 1]);
      }
    }
  }

  lemma NewRequestPrintable(recipient: string, amount: string, decimals: byte, maxAmount: string,
                            splToken: Option<string>, reference: Option<string>,
                            label_: Option<Text>, message: Option<Text>, memo: Option<Text>)
    requires NewRequest(recipient, amount, decimals, maxAmount, splToken, reference, label_, message, memo).Ok?
    ensures Printable(NewRequest(recipient, amount, decimals, maxAmount, splToken, reference, label_, message, memo).value)
  {
    var r := NewRequest(recipient, amount, decimals, maxAmount, splToken, reference, label_, message, memo).value;
    Amount.ValidateSound(amount, decimals, maxAmount);
    AmountLiteral(r.amount);
    PubkeyLiteral(recipient);
    if splToken.Some? {
      PubkeyLiteral(splToken.value);
    }
    if reference.Some? {
      PubkeyLiteral(reference.value);
    }
  }

  /** Everything `TransferRequest::new` accepts survives printing and parsing. */
  lemma NewRequestRoundTrip(recipient: string, amount: string, decimals: byte, maxAmount: string,
                            splToken: Option<string>, reference: Option<string>,
                            label_: Option<Text>, message: Option<Text>, memo: Option<Text>, plus: bool)
    requires NewRequest(recipient, amount, decimals, maxAmount, splToken, reference, label_, message, memo).Ok?
    ensures var r := NewRequest(recipient, amount, decimals, maxAmount, splToken, reference, label_, message, memo).value;
            && ParseUrl(UrlSpec(r), plus) == Some(Parsed(recipient, PlainParams(r), ""))
            && r.splToken == splToken && r.reference == reference
            && r.label_ == label_ && r.message == message && r.memo == memo
            && Amount.CanonicalizeAmount(amount, decimals) == Some(r.amount)
  {
    var r := NewRequest(recipient, amount, decimals, maxAmount, splToken, reference, label_, message, memo).value;
    NewRequestPrintable(recipient, amount, decimals, maxAmount, splToken, reference, label_, message, memo);
    Amount.ValidateSound(amount, decimals, maxAmount);
    UrlRoundTrip(r, plus);
  }

  // ---- Visible text ------------------------------------------------------------------------

  /** No white space and no control characters. */
  predicate Visible(s: string) {
    forall i :: 0 <= i < |s| ==> s[i] as int > 0x20 && s[i] as int != 0x7F
  }

  // ---- Serializing again -------------------------------------------------------------------

  /** A character that the query of a URL keeps (the query percent-encode set of the WHATWG URL standard). */
  predicate KeptInQuery(c: char) {
    0x20 < c as int < 0x7F && c != '"' && c != '<' && c != '>' && c != '#'
  }

  function QueryText(q: string): string {
    if q == "" then ""
    else (if KeptInQuery(q[0]) || q[0] as int >= 256 then [q[0]]
          else ['%', HexDigit(q[0] as int / 16), HexDigit(q[0] as int % 16)]) + QueryText(q[1..])
  }

  /** `new URL(u).href` of a `solana:` URL with a plain path: the scheme in lower case and the query escaped. */
  function Href(u: string): string
    requires |u| >= 7
  {
    var rest := u[7..];
    var h := Find(rest, '#');
    var body := rest[..h];
    var q := Find(body, '?');
    "solana:" + body[..q] + (if q < |body| then "?" + QueryText(body[q + 1..]) else "") + rest[h..]
  }

  predicate Kept(s: string) {
    forall i :: 0 <= i < |s| ==> KeptInQuery(s[i])
  }

  /** A URL that the renderer prints serializes to itself. */
  lemma HrefOfKept(path: string, q: string)
    requires Literal(path) && Kept(q)
    ensures var u := "solana:" + path + "?" + q; |u| >= 7 && Href(u) == u
  {
    CutAt(path, q);
    FinalQuery(q);
    hide QueryText, Find, Literal, Kept;
    Regroup("solana:", path, "?", q);
  }

  lemma Regroup(a: string, b: string, c: string, d: string)
    ensures a + b + (c + d) + "" == a + b + c + d
  {
  }

  lemma {:induction false} JoinKept(ps: seq<Param>)
    requires Clean(ps)
    ensures Kept(Join(ps))
  {
    if ps != [] {
      JoinKept(ps[1..]);
      forall i | 0 <= i < |ps[0].value| ensures KeptInQuery(ps[0].value[i]) {}
      forall i | 0 <= i < |ps[0].name| ensures KeptInQuery(ps[0].name[i]) {}
    }
  }

  /** A rendered URL can be shown and scanned as it is, and a URL parser hands it on unchanged. */
  lemma UrlIsHref(recipient: string, amount: string, decimals: byte, maxAmount: string,
                  splToken: Option<string>, reference: Option<string>,
                  label_: Option<Text>, message: Option<Text>, memo: Option<Text>)
    requires NewRequest(recipient, amount, decimals, maxAmount, splToken, reference, label_, message, memo).Ok?
    ensures var url := UrlSpec(NewRequest(recipient, amount, decimals, maxAmount, splToken, reference, label_, message, memo).value);
            |url| >= 7 && Href(url) == url && Visible(url)
  {
    var r := NewRequest(recipient, amount, decimals, maxAmount, splToken, reference, label_, message, memo).value;
    NewRequestPrintable(recipient, amount, decimals, maxAmount, splToken, reference, label_, message, memo);
    ParamsClean(r);
    JoinKept(Params(r));
    JoinNonempty(Params(r));
    hide Join, Params, Clean, Unreserved, PctEncodeSpec, NewRequest, Href, Kept, Literal, Visible;
    var q := Join(Params(r))[1..];
    KeptTail(Join(Params(r)));
    HrefOfKept(r.recipient, q);
    VisibleParts(r.recipient, q);
  }

  lemma KeptTail(s: string)
    requires s != "" && Kept(s)
    ensures Kept(s[1..])
  {
  }

  lemma VisibleParts(path: string, q: string)
    requires Literal(path) && Kept(q)
    ensures Visible("solana:" + path + "?" + q)
  {
    var a := "solana:" + path + "?";
    forall i | 0 <= i < |a| ensures a[i] as int > 0x20 && a[i] as int != 0x7F {
      if 7 <= i < 7 + |path| {
        assert a[i] == path[i - 7] && Unreserved(path[i - 7]);
      }
    }
  }

  // ---- Serializing keeps the meaning -------------------------------------------------------

  /** How one character of a query is written. */
  function QueryChar(c: char): (t: string)
    ensures t != ""
  {
    if KeptInQuery(c) || c as int >= 256 then [c] else ['%', HexDigit(c as int / 16), HexDigit(c as int % 16)]
  }

  lemma QueryFront(q: string)
    requires q != ""
    ensures QueryText(q) == QueryChar(q[0]) + QueryText(q[1..])
  {
  }

  lemma QueryNone()
    ensures QueryText("") == ""
  {
  }

  lemma {:induction false} QueryConcat(a: string, b: string)
    ensures QueryText(a + b) == QueryText(a) + QueryText(b)
  {
    hide QueryText, QueryChar;
    if a == "" {
      assert a + b == b;
      QueryNone();
    } else {
      QueryConcat(a[1..], b);
      QueryFront(a);
      QueryFront(a + b);
      assert (a + b)[1..] == a[1..] + b;
      Associative(QueryChar(a[0]), QueryText(a[1..]), QueryText(b));
    }
  }

  lemma QuerySymbol(c: char)
    requires KeptInQuery(c)
    ensures QueryText([c]) == [c]
  {
    assert [c][1..] == "";
    QueryFront([c]);
  }

  /** How a query is written, character by character: all but a few of ASCII as it is, the rest of it escaped. */
  lemma QueryWrites(a: string, c: char, b: string)
    ensures QueryText(a + [c] + b) ==
            QueryText(a)
            + (if c as int >= 256 || ('!' <= c <= '~' && c != '"' && c != '<' && c != '>' && c != '#') then [c]
               else ['%', "0123456789ABCDEF"[c as int / 16], "0123456789ABCDEF"[c as int % 16]])
            + QueryText(b)
  {
    QueryConcat(a, [c]);
    QueryConcat(a + [c], b);
    QueryFront([c]);
    assert [c][1..] == "";
    QueryNone();
    hide QueryText;
    assert QueryText([c]) == QueryChar(c);
    if c as int < 256 {
      HexIs(c as int / 16);
      HexIs(c as int % 16);
    }
  }

  lemma HexIs(n: nat)
    requires n < 16
    ensures HexDigit(n) == "0123456789ABCDEF"[n]
  {
  }

  /** A character that cuts a query is not made from others. */
  predicate Cuts(c: char) {
    c == '&' || c == '='
  }

  lemma {:induction false} NoNewCut(s: string, c: char)
    requires Cuts(c) && forall j :: 0 <= j < |s| ==> s[j] != c
    ensures forall j :: 0 <= j < |QueryText(s)| ==> QueryText(s)[j] != c
  {
    if s != "" {
      NoNewCut(s[1..], c);
      QueryFront(s);
      assert forall j :: 0 <= j < |QueryChar(s[0])| ==> QueryChar(s[0])[j] != c;
    }
  }

  lemma {:induction false} FindStops(s: string, c: char)
    ensures forall j :: 0 <= j < Find(s, c) ==> s[j] != c
  {
    if s != "" && s[0] != c {
      FindStops(s[1..], c);
      assert forall j :: 0 < j < |s| ==> s[j] == s[1..][j - 1];
    }
  }

  lemma CutThere(t: string, front: string, c: char, back: string)
    requires t == front + [c] + back && forall j :: 0 <= j < |front| ==> front[j] != c
    ensures Find(t, c) == |front| && t[..|front|] == front && t[|front| + 1..] == back
  {
    FindIs(t, c, |front|);
  }

  /** Cutting the serialized text is serializing the pieces. */
  lemma QueryCut(s: string, c: char)
    requires Cuts(c)
    ensures var i, t := Find(s, c), QueryText(s);
            && Find(t, c) == |QueryText(s[..i])| && t[..Find(t, c)] == QueryText(s[..i])
            && (Find(t, c) == |t| <==> i == |s|)
            && (i < |s| ==> t[Find(t, c) + 1..] == QueryText(s[i + 1..]))
            && (Find(t, c) == 0 <==> i == 0) && (t == "" <==> s == "")
  {
    hide QueryText, Find;
    var i, t := Find(s, c), QueryText(s);
    FindStops(s, c);
    NoNewCut(s[..i], c);
    QueryEmpty(s[..i]);
    QueryEmpty(s);
    if i < |s| {
      QueryAround(s, i, c);
      CutThere(t, QueryText(s[..i]), c, QueryText(s[i + 1..]));
    } else {
      assert s[..i] == s;
      FindIs(t, c, |t|);
    }
  }

  lemma QueryAround(s: string, i: nat, c: char)
    requires i < |s| && s[i] == c && KeptInQuery(c)
    ensures QueryText(s) == QueryText(s[..i]) + [c] + QueryText(s[i + 1..])
  {
    hide QueryText;
    assert s == s[..i] + [c] + s[i + 1..];
    QueryConcat(s[..i], [c]);
    QueryConcat(s[..i] + [c], s[i + 1..]);
    QuerySymbol(c);
  }

  lemma QueryEmpty(s: string)
    ensures QueryText(s) == "" <==> s == ""
  {
    if s != "" {
      QueryFront(s);
    }
  }

  lemma HexIsKept(c: char)
    requires HexValue(c).Some?
    ensures KeptInQuery(c)
  {
  }

  /** A serialized piece decodes to what the piece decodes to. */
  lemma {:induction false} DecodeQuery(s: string, plus: bool)
    ensures PctDecode(QueryText(s), plus) == PctDecode(s, plus)
    decreases |s|
  {
    if s != "" {
      var t := QueryText(s);
      QueryFront(s);
      if |s| >= 3 && s[0] == '%' && HexValue(s[1]).Some? && HexValue(s[2]).Some? {
        DecodeQuery(s[3..], plus);
        EscapeKept(s);
        assert t[..3] == s[..3] && t[3..] == QueryText(s[3..]);
        assert t[0] == s[0] && t[1] == s[1] && t[2] == s[2];
      } else {
        DecodeQuery(s[1..], plus);
        if KeptInQuery(s[0]) || s[0] as int >= 256 {
          assert t[0] == s[0] && t[1..] == QueryText(s[1..]);
          NoNewEscape(s);
        } else {
          DecodeWritten(s[0], QueryText(s[1..]), plus);
        }
      }
    }
  }

  lemma DecodeWritten(c: char, rest: string, plus: bool)
    requires c as int < 256 && !KeptInQuery(c)
    ensures PctDecode(QueryChar(c) + rest, plus) == [c] + PctDecode(rest, plus)
  {
    var e := QueryChar(c);
    var hi, lo: nat := c as int / 16, c as int % 16;
    assert hi * 16 + lo == c as int;
    assert (e + rest)[3..] == rest;
    assert (e + rest)[0] == '%' && HexValue((e + rest)[1]) == Some(hi) && HexValue((e + rest)[2]) == Some(lo);
  }

  lemma KeptFront(q: string)
    requires q != "" && KeptInQuery(q[0])
    ensures QueryText(q) == [q[0]] + QueryText(q[1..])
  {
  }

  lemma EscapeKept(s: string)
    requires |s| >= 3 && s[0] == '%' && HexValue(s[1]).Some? && HexValue(s[2]).Some?
    ensures QueryText(s) == s[..3] + QueryText(s[3..])
  {
    hide QueryText;
    HexIsKept(s[1]);
    HexIsKept(s[2]);
    KeptFront(s);
    Dropped(s, 1);
    KeptFront(s[1..]);
    Dropped(s, 2);
    KeptFront(s[2..]);
    hide HexValue, KeptInQuery;
    Three(s, QueryText(s), QueryText(s[1..]), QueryText(s[2..]), QueryText(s[3..]));
  }

  lemma Dropped(s: string, i: nat)
    requires i < |s|
    ensures s[i..][0] == s[i] && s[i..][1..] == s[i + 1..]
  {
  }

  lemma Three(s: string, a: string, b: string, c: string, d: string)
    requires |s| >= 3 && a == [s[0]] + b && b == [s[1]] + c && c == [s[2]] + d
    ensures a == s[..3] + d
  {
  }

  /** A `%` that starts no escape starts none after serializing. */
  lemma NoNewEscape(s: string)
    requires s != "" && !(|s| >= 3 && s[0] == '%' && HexValue(s[1]).Some? && HexValue(s[2]).Some?)
    requires KeptInQuery(s[0]) || s[0] as int >= 256
    ensures var t := QueryText(s);
            t[0] == s[0] && t[1..] == QueryText(s[1..]) && !(|t| >= 3 && t[0] == '%' && HexValue(t[1]).Some? && HexValue(t[2]).Some?)
  {
    var t := QueryText(s);
    QueryFront(s);
    assert t == [s[0]] + QueryText(s[1..]);
    if |s| >= 2 {
      QueryFront(s[1..]);
      assert t[1] == QueryChar(s[1])[0];
      if HexValue(t[1]).Some? {
        assert t[1] == s[1];
        assert t[2..] == QueryText(s[2..]) by {
          assert s[1..][1..] == s[2..];
          assert t == [s[0]] + ([s[1]] + QueryText(s[2..]));
        }
        if |s| >= 3 {
          QueryFront(s[2..]);
          assert |t| >= 3 && t[2] == QueryChar(s[2])[0];
        } else {
          assert s[2..] == "";
        }
      }
    } else {
      assert s[1..] == "";
    }
  }

  lemma DecodeParam(piece: string, plus: bool)
    ensures ParseParam(QueryText(piece), plus) == ParseParam(piece, plus)
  {
    hide QueryText, PctDecode, Find;
    QueryCut(piece, '=');
    var i, t := Find(piece, '='), QueryText(piece);
    DecodeQuery(piece[..i], plus);
    assert PctDecode(t[..Find(t, '=')], plus) == PctDecode(piece[..i], plus);
    if i < |piece| {
      DecodeQuery(piece[i + 1..], plus);
      assert PctDecode(t[Find(t, '=') + 1..], plus) == PctDecode(piece[i + 1..], plus);
    }
  }

  lemma {:induction false} QueryKeepsParams(q: string, plus: bool)
    ensures ParseQuery(QueryText(q), plus) == ParseQuery(q, plus)
    decreases |q|
  {
    hide QueryText, ParseParam, Find;
    QueryCut(q, '&');
    var i, t := Find(q, '&'), QueryText(q);
    DecodeParam(q[..i], plus);
    if i < |q| {
      QueryKeepsParams(q[i + 1..], plus);
      assert ParseQuery(t, plus) == (if i == 0 then [] else [ParseParam(q[..i], plus)]) + ParseQuery(q[i + 1..], plus);
    } else {
      assert q[..i] == q && t[..|t|] == t;
    }
  }

  lemma {:induction false} NoNewHash(s: string)
    ensures forall j :: 0 <= j < |QueryText(s)| ==> QueryText(s)[j] != '#'
  {
    if s != "" {
      NoNewHash(s[1..]);
      QueryFront(s);
    }
  }

  /** A URL and its serialization ask for the same. */
  lemma HrefKeepsMeaning(u: string, plus: bool)
    requires |u| >= 7 && ParseUrl(u, plus).Some?
    ensures |Href(u)| >= 7 && ParseUrl(Href(u), plus) == ParseUrl(u, plus)
  {
    var rest := u[7..];
    var h := Find(rest, '#');
    var body, hash := rest[..h], rest[h..];
    var q := Find(body, '?');
    var path := body[..q];
    FindStops(rest, '#');
    FindStops(body, '?');
    hide ParseQuery, QueryText, Find;
    if q < |body| {
      var query := body[q + 1..];
      QueryKeepsParams(query, plus);
      NoNewHash(query);
      Reparsed(path, "?" + QueryText(query), hash, plus);
      assert ("?" + QueryText(query))[1..] == QueryText(query);
    } else {
      Reparsed(path, "", hash, plus);
    }
  }

  /** A URL put together from its parts is cut into them. */
  lemma CutBack(path: string, query: string, hash: string)
    requires forall j :: 0 <= j < |path| ==> path[j] != '#' && path[j] != '?'
    requires query == "" || query[0] == '?'
    requires forall j :: 0 <= j < |query| ==> query[j] != '#'
    requires hash == "" || hash[0] == '#'
    ensures var rest, body := path + query + hash, path + query;
            && Find(rest, '#') == |body| && rest[..|body|] == body && rest[|body|..] == hash
            && Find(body, '?') == |path| && body[..|path|] == path && body[|path|..] == query
  {
    FindIs(path + query + hash, '#', |path + query|);
    FindIs(path + query, '?', |path|);
  }

  lemma Reparsed(path: string, query: string, hash: string, plus: bool)
    requires forall j :: 0 <= j < |path| ==> path[j] != '#' && path[j] != '?'
    requires query == "" || query[0] == '?'
    requires forall j :: 0 <= j < |query| ==> query[j] != '#'
    requires hash == "" || hash[0] == '#'
    ensures ParseUrl("solana:" + path + query + hash, plus) ==
            Some(Parsed(path, if query == "" then [] else ParseQuery(query[1..], plus), hash))
  {
    hide ParseQuery, Find, Lower;
    CutBack(path, query, hash);
    Schemed(path, query, hash);
    LowerSolana();
    AfterMark(path, query);
  }

  lemma LowerSolana()
    ensures Lower("solana:") == "solana:"
  {
  }

  /** The rest of a URL after its scheme. */
  lemma Schemed(path: string, query: string, hash: string)
    ensures var u := "solana:" + path + query + hash; |u| >= 7 && u[..7] == "solana:" && u[7..] == path + query + hash
  {
    FrontBack("solana:", path + query + hash);
    assert "solana:" + path + query + hash == "solana:" + (path + query + hash);
  }

  lemma FrontBack(a: string, b: string)
    ensures (a + b)[..|a|] == a && (a + b)[|a|..] == b
  {
  }

  lemma AfterMark(path: string, query: string)
    ensures query != "" ==> (path + query)[|path| + 1..] == query[1..]
  {
  }

  /** Nothing in the text is left to escape. */
  predicate Final(s: string) {
    forall i :: 0 <= i < |s| ==> KeptInQuery(s[i]) || s[i] as int >= 256
  }

  lemma {:induction false} FinalQuery(q: string)
    requires Final(q)
    ensures QueryText(q) == q
  {
    if q != "" {
      FinalQuery(q[1..]);
      QueryFront(q);
      assert q == [q[0]] + q[1..];
    }
  }

  lemma {:induction false} QueryIsFinal(q: string)
    ensures Final(QueryText(q))
  {
    if q != "" {
      QueryIsFinal(q[1..]);
      QueryFront(q);
    }
  }

  lemma Serialized(path: string, query: string, hash: string)
    requires forall j :: 0 <= j < |path| ==> path[j] != '#' && path[j] != '?'
    requires query == "" || (query[0] == '?' && Final(query[1..]))
    requires forall j :: 0 <= j < |query| ==> query[j] != '#'
    requires hash == "" || hash[0] == '#'
    ensures Href("solana:" + path + query + hash) == "solana:" + path + query + hash
  {
    hide Find, QueryText, Final;
    CutBack(path, query, hash);
    Schemed(path, query, hash);
    AfterMark(path, query);
    if query != "" {
      FinalQuery(query[1..]);
      assert query == "?" + query[1..];
    }
  }

  /** The serialization has a lower-case scheme and is final: nothing in its query is left to escape. */
  lemma HrefIsFinal(u: string)
    requires |u| >= 7
    ensures |Href(u)| >= 7 && Href(u)[..7] == "solana:" && Href(Href(u)) == Href(u)
  {
    var path, query, hash := PartsOf(u);
    hide Href, Final;
    HrefParts(path, query, hash);
  }

  /** The parts that the serialization is put together from. */
  lemma PartsOf(u: string) returns (path: string, query: string, hash: string)
    requires |u| >= 7
    ensures Href(u) == "solana:" + path + query + hash
    ensures forall j :: 0 <= j < |path| ==> path[j] != '#' && path[j] != '?'
    ensures query == "" || (query[0] == '?' && Final(query[1..]))
    ensures forall j :: 0 <= j < |query| ==> query[j] != '#'
    ensures hash == "" || hash[0] == '#'
  {
    hide QueryText, Final;
    var rest := u[7..];
    var h := Find(rest, '#');
    var body := rest[..h];
    var q := Find(body, '?');
    FindStops(rest, '#');
    FindStops(body, '?');
    path, hash := body[..q], rest[h..];
    if q < |body| {
      QueryMark(body[q + 1..]);
      query := "?" + QueryText(body[q + 1..]);
    } else {
      query := "";
    }
  }

  lemma QueryMark(q: string)
    ensures var m := "?" + QueryText(q); m[1..] == QueryText(q) && Final(m[1..]) && forall j :: 0 <= j < |m| ==> m[j] != '#'
  {
    NoNewHash(q);
    QueryIsFinal(q);
  }

  lemma HrefParts(path: string, query: string, hash: string)
    requires forall j :: 0 <= j < |path| ==> path[j] != '#' && path[j] != '?'
    requires query == "" || (query[0] == '?' && Final(query[1..]))
    requires forall j :: 0 <= j < |query| ==> query[j] != '#'
    requires hash == "" || hash[0] == '#'
    ensures var u := "solana:" + path + query + hash; |u| >= 7 && u[..7] == "solana:" && Href(u) == u
  {
    hide Final, Href;
    Serialized(path, query, hash);
    Schemed(path, query, hash);
  }
}
