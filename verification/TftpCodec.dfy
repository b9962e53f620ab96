/**
  TFTP requests and option acknowledgements (crates/cluster-netboot/src/tftp.rs;
  RFC 2347 and RFC 2348).  Text is ASCII, kept as bytes.
 */
module TftpCodec {
  import opened Common

  type Bytes = seq<byte>

  const OP_RRQ: int := 1
  const OP_OACK: int := 6
  const DEFAULT_BLOCK_SIZE: nat := 512
  const MAX_BLOCK_SIZE: nat := 1428
  const USIZE_LIMIT: nat := 0x1_0000_0000_0000_0000

  /** "blksize" and "tsize". */
  const BLKSIZE: Bytes := [98, 108, 107, 115, 105, 122, 101]
  const TSIZE: Bytes := [116, 115, 105, 122, 101]

  datatype Request = Request(filename: Bytes, mode: Bytes, options: map<Bytes, Bytes>)

  predicate NulFree(s: Bytes) {
    0 !in s
  }

  function LowerByte(b: byte): byte {
    if 65 <= b <= 90 then b + 32 else b
  }

  function Lower(s: Bytes): (r: Bytes)
    ensures |r| == |s|
  {
    seq(|s|, i requires 0 <= i < |s| => LowerByte(s[i]))
  }

  // --------------------------------------------------------------- requests

  /** The NUL-terminated parts of a payload; an unterminated tail is dropped. */
  function Parts(payload: Bytes, current: Bytes): seq<Bytes> {
    if payload == [] then []
    else if payload[0] == 0 then [current] + Parts(payload[1..], [])
    else Parts(payload[1..], current + [payload[0]])
  }

  /** Key/value pairs in order, keys in lower case, later ones winning; an odd last part is ignored. */
  function Collect(parts: seq<Bytes>, options: map<Bytes, Bytes>): map<Bytes, Bytes> {
    if |parts| < 2 then options else Collect(parts[2..], options[Lower(parts[0]) := parts[1]])
  }

  function ParsedRequest(payload: Bytes): Result<Request, string> {
    var parts := Parts(payload, []);
    if |parts| < 2 then Err("Malformed RRQ payload")
    else Ok(Request(parts[0], Lower(parts[1]), Collect(parts[2..], map[])))
  }

  method ParseRrq(payload: Bytes) returns (r: Result<Request, string>)
    ensures r == ParsedRequest(payload)
  {
    var parts: seq<Bytes> := [];
    var current: Bytes := [];
    for k := 0 to |payload|
      invariant parts + Parts(payload[k..], current) == Parts(payload, [])
    {
      var b := payload[k];
      assert payload[k..][0] == b && payload[k..][1..] == payload[k + 1..];
      if b == 0 {
        assert parts + ([current] + Parts(payload[k + 1..], [])) == (parts + [current]) + Parts(payload[k + 1..], []);
        parts := parts + [current];
        current := [];
      } else {
        current := current + [b];
      }
    }
    assert parts == Parts(payload, []);
    if |parts| < 2 {
      return Err("Malformed RRQ payload");
    }
    var options: map<Bytes, Bytes> := map[];
    var i := 2;
    while i + 1 < |parts|
      invariant 2 <= i <= |parts|
      invariant Collect(parts[i..], options) == Collect(parts[2..], map[])
    {
      assert parts[i..][2..] == parts[i + 2..];
      options := options[Lower(parts[i]) := parts[i + 1]];
      i := i + 2;
    }
    return Ok(Request(parts[0], Lower(parts[1]), options));
  }

  function Terminated(parts: seq<Bytes>): Bytes {
    if parts == [] then [] else parts[0] + [0] + Terminated(parts[1..])
  }

  datatype Pair = Pair(key: Bytes, value: Bytes)

  function Flatten(pairs: seq<Pair>): seq<Bytes> {
    if pairs == [] then [] else [pairs[0].key, pairs[0].value] + Flatten(pairs[1..])
  }

  function EncodeRequest(filename: Bytes, mode: Bytes, pairs: seq<Pair>): Bytes {
    Terminated([filename, mode] + Flatten(pairs))
  }

  lemma {:induction false} PartSkipsText(text: Bytes, rest: Bytes, current: Bytes)
    requires NulFree(text)
    ensures Parts(text + [0] + rest, current) == [current + text] + Parts(rest, [])
  {
    var payload := text + [0] + rest;
    if text == [] {
      assert payload[1..] == rest && current + text == current;
    } else {
      assert payload[0] == text[0] && payload[1..] == text[1..] + [0] + rest;
      PartSkipsText(text[1..], rest, current + [text[0]]);
      assert current + [text[0]] + text[1..] == current + text;
    }
  }

  lemma {:induction false} TailIsDropped(tail: Bytes, current: Bytes)
    requires NulFree(tail)
    ensures Parts(tail, current) == []
  {
    if tail != [] {
      TailIsDropped(tail[1..], current + [tail[0]]);
    }
  }

  /** Splitting inverts terminating, whatever unterminated tail follows. */
  lemma {:induction false} PartsInvertTerminated(parts: seq<Bytes>, tail: Bytes)
    requires (forall p | p in parts :: NulFree(p)) && NulFree(tail)
    ensures Parts(Terminated(parts) + tail, []) == parts
  {
    if parts == [] {
      assert [] + tail == tail;
      TailIsDropped(tail, []);
    } else {
      assert Terminated(parts) + tail == parts[0] + [0] + (Terminated(parts[1..]) + tail);
      PartSkipsText(parts[0], Terminated(parts[1..]) + tail, []);
      PartsInvertTerminated(parts[1..], tail);
      assert [] + parts[0] == parts[0];
    }
  }

  lemma {:induction false} FlattenNulFree(pairs: seq<Pair>)
    requires forall p | p in pairs :: NulFree(p.key) && NulFree(p.value)
    ensures forall p | p in Flatten(pairs) :: NulFree(p)
  {
    if pairs != [] {
      FlattenNulFree(pairs[1..]);
    }
  }

  /** `pairs` lists distinct lower-case keys. */
  ghost predicate DistinctLower(pairs: seq<Pair>) {
    && (forall i | 0 <= i < |pairs| :: Lower(pairs[i].key) == pairs[i].key)
    && forall i, j | 0 <= i < j < |pairs| :: pairs[i].key != pairs[j].key
  }

  /** The map holds exactly these pairs. */
  ghost predicate Holds(options: map<Bytes, Bytes>, pairs: seq<Pair>) {
    && (forall i | 0 <= i < |pairs| :: pairs[i].key in options && options[pairs[i].key] == pairs[i].value)
    && forall k | k in options :: exists i :: 0 <= i < |pairs| && pairs[i].key == k
  }

  /** The map has exactly the keys of the pairs in lower case, each with the value of its last pair. */
  ghost predicate LastWins(pairs: seq<Pair>, m: map<Bytes, Bytes>) {
    && (forall k | k in m :: exists i :: 0 <= i < |pairs| && Lower(pairs[i].key) == k)
    && forall i | 0 <= i < |pairs| ::
         var k := Lower(pairs[i].key);
         k in m && ((forall j | i < j < |pairs| :: Lower(pairs[j].key) != k) ==> m[k] == pairs[i].value)
  }

  lemma {:induction false} CollectSnoc(pairs: seq<Pair>, last: Pair, start: map<Bytes, Bytes>)
    ensures Collect(Flatten(pairs + [last]), start) == Collect(Flatten(pairs), start)[Lower(last.key) := last.value]
  {
    if pairs == [] {
      assert pairs + [last] == [last];
      assert Flatten([last]) == [last.key, last.value];
    } else {
      assert (pairs + [last])[1..] == pairs[1..] + [last];
      assert Flatten(pairs + [last])[2..] == Flatten(pairs[1..] + [last]);
      assert Flatten(pairs)[2..] == Flatten(pairs[1..]);
      CollectSnoc(pairs[1..], last, start[Lower(pairs[0].key) := pairs[0].value]);
    }
  }

  lemma LastWinsSnoc(pairs: seq<Pair>, last: Pair, m: map<Bytes, Bytes>)
    requires LastWins(pairs, m)
    ensures LastWins(pairs + [last], m[Lower(last.key) := last.value])
  {
    var all, m' := pairs + [last], m[Lower(last.key) := last.value];
    forall k | k in m' ensures exists i :: 0 <= i < |all| && Lower(all[i].key) == k {
      if k == Lower(last.key) {
        assert all[|pairs|] == last;
      } else {
        var i :| 0 <= i < |pairs| && Lower(pairs[i].key) == k;
        assert all[i] == pairs[i];
      }
    }
    forall i | 0 <= i < |pairs| && (forall j | i < j < |all| :: Lower(all[j].key) != Lower(all[i].key))
      ensures m'[Lower(all[i].key)] == all[i].value
    {
      assert all[i] == pairs[i] && all[|pairs|] == last;
      assert forall j | i < j < |pairs| :: all[j] == pairs[j];
    }
  }

  lemma {:induction false} CollectLastWins(pairs: seq<Pair>)
    ensures LastWins(pairs, Collect(Flatten(pairs), map[]))
  {
    if pairs != [] {
      var init, last := pairs[..|pairs| - 1], pairs[|pairs| - 1];
      assert pairs == init + [last];
      CollectLastWins(init);
      CollectSnoc(init, last, map[]);
      LastWinsSnoc(init, last, Collect(Flatten(init), map[]));
    }
  }

  lemma CollectHolds(pairs: seq<Pair>)
    requires DistinctLower(pairs)
    ensures Holds(Collect(Flatten(pairs), map[]), pairs)
  {
    CollectLastWins(pairs);
  }

  /**
    Parsing an encoded request returns its file name, its mode in lower case
    and its options with the last value of each key; bytes after the last NUL
    are ignored.
   */
  lemma RequestRoundTrip(filename: Bytes, mode: Bytes, pairs: seq<Pair>, tail: Bytes)
    requires NulFree(filename) && NulFree(mode) && NulFree(tail)
    requires forall p | p in pairs :: NulFree(p.key) && NulFree(p.value)
    ensures var r := ParsedRequest(EncodeRequest(filename, mode, pairs) + tail);
            r.Ok? && r.value.filename == filename && r.value.mode == Lower(mode) && LastWins(pairs, r.value.options)
  {
    FlattenNulFree(pairs);
    PartsInvertTerminated([filename, mode] + Flatten(pairs), tail);
    assert ([filename, mode] + Flatten(pairs))[2..] == Flatten(pairs);
    CollectLastWins(pairs);
  }

  // ------------------------------------------------------- decimal numbers

  predicate IsDigit(b: byte) {
    48 <= b <= 57
  }

  function Value(digits: Bytes): int {
    if digits == [] then 0 else Value(digits[..|digits| - 1]) * 10 + (digits[|digits| - 1] as int - 48)
  }

  function ToDecimal(n: nat): Bytes {
    if n < 10 then [48 + n] else ToDecimal(n / 10) + [48 + n % 10]
  }

  /** A machine-word number: an optional plus sign and digits, within range. */
  function ParseUsize(s: Bytes): Option<nat> {
    var digits := if s != [] && s[0] == 43 then s[1..] else s;
    if digits == [] || (exists d | d in digits :: !IsDigit(d)) || !(0 <= Value(digits) < USIZE_LIMIT) then None
    else Some(Value(digits))
  }

  lemma {:induction false} DecimalDigits(n: nat)
    ensures ToDecimal(n) != [] && Value(ToDecimal(n)) == n
    ensures forall d | d in ToDecimal(n) :: IsDigit(d)
  {
    if n >= 10 {
      DecimalDigits(n / 10);
      assert ToDecimal(n)[..|ToDecimal(n)| - 1] == ToDecimal(n / 10);
    } else {
      assert ToDecimal(n)[..0] == [];
    }
  }

  lemma DecimalRoundTrip(n: nat)
    requires n < USIZE_LIMIT
    ensures ParseUsize(ToDecimal(n)) == Some(n)
    ensures NulFree(ToDecimal(n))
  {
    DecimalDigits(n);
    assert ToDecimal(n)[0] in ToDecimal(n);
  }

  // ------------------------------------------------------ option negotiation

  function Min(a: nat, b: nat): nat {
    if a <= b then a else b
  }

  /** The size of the stream's blocks. */
  function BlockSize(options: map<Bytes, Bytes>): nat {
    var asked := if BLKSIZE in options then ParseUsize(options[BLKSIZE]) else None;
    Min(asked.GetOr(DEFAULT_BLOCK_SIZE), MAX_BLOCK_SIZE)
  }

  /** The options the server acknowledges. */
  function Acknowledged(options: map<Bytes, Bytes>, fileLen: nat): map<Bytes, Bytes> {
    var size := if BLKSIZE in options then map[BLKSIZE := ToDecimal(BlockSize(options))] else map[];
    if TSIZE in options then size[TSIZE := ToDecimal(fileLen)] else size
  }

  ghost predicate Enumerates(order: seq<Bytes>, options: map<Bytes, Bytes>) {
    && (forall k | k in order :: k in options)
    && (forall k | k in options :: k in order)
    && forall i, j | 0 <= i < j < |order| :: order[i] != order[j]
  }

  function PairsIn(order: seq<Bytes>, options: map<Bytes, Bytes>): seq<Pair>
    requires forall k | k in order :: k in options
  {
    seq(|order|, i requires 0 <= i < |order| => Pair(order[i], options[order[i]]))
  }

  /** The packet for one iteration order of the option map. */
  method BuildOack(options: map<Bytes, Bytes>, order: seq<Bytes>) returns (pkt: Bytes)
    requires Enumerates(order, options)
    ensures pkt == [0, 6] + Terminated(Flatten(PairsIn(order, options)))
  {
    pkt := [0, OP_OACK];
    ghost var pairs := PairsIn(order, options);
    assert pairs[0..] == pairs;
    for i := 0 to |order|
      invariant pkt + Terminated(Flatten(pairs[i..])) == [0, OP_OACK] + Terminated(Flatten(pairs))
    {
      var k, v := order[i], options[order[i]];
      EncodeOnePair(pairs[i..]);
      assert pairs[i..][1..] == pairs[i + 1..];
      Regroup(pkt, k, v, Terminated(Flatten(pairs[i + 1..])));
      pkt := pkt + k + [0] + v + [0];
    }
    assert pairs[|order|..] == [];
    assert pkt + [] == pkt;
  }

  lemma Regroup(pkt: Bytes, k: Bytes, v: Bytes, rest: Bytes)
    ensures pkt + (k + [0] + (v + [0] + rest)) == (pkt + k + [0] + v + [0]) + rest
  {
  }

  lemma TerminatedCons(p: Bytes, rest: seq<Bytes>)
    ensures Terminated([p] + rest) == p + [0] + Terminated(rest)
  {
    assert ([p] + rest)[1..] == rest;
  }

  lemma {:induction false} EncodeOnePair(pairs: seq<Pair>)
    requires pairs != []
    ensures Terminated(Flatten(pairs)) == pairs[0].key + [0] + (pairs[0].value + [0] + Terminated(Flatten(pairs[1..])))
  {
    var rest := Flatten(pairs[1..]);
    TerminatedCons(pairs[0].value, rest);
    TerminatedCons(pairs[0].key, [pairs[0].value] + rest);
    assert Flatten(pairs) == [pairs[0].key] + ([pairs[0].value] + rest);
  }

  /** How a client reads an OACK. */
  function DecodeOack(pkt: Bytes): map<Bytes, Bytes>
    requires |pkt| >= 2
  {
    Collect(Parts(pkt[2..], []), map[])
  }

  lemma HoldsIsEquality(m: map<Bytes, Bytes>, order: seq<Bytes>, options: map<Bytes, Bytes>)
    requires Enumerates(order, options) && Holds(m, PairsIn(order, options))
    ensures m == options
  {
    var pairs := PairsIn(order, options);
    forall k | k in options ensures k in m && m[k] == options[k] {
      var i :| 0 <= i < |order| && order[i] == k;
      assert pairs[i].key == k;
    }
  }

  /** Every iteration order of the map gives a packet that decodes to the same map. */
  lemma {:induction false} OackRoundTrip(options: map<Bytes, Bytes>, order: seq<Bytes>)
    requires Enumerates(order, options)
    requires forall k | k in options :: NulFree(k) && NulFree(options[k]) && Lower(k) == k
    ensures DecodeOack([0, 6] + Terminated(Flatten(PairsIn(order, options)))) == options
  {
    var pairs := PairsIn(order, options);
    var body := Terminated(Flatten(pairs));
    assert ([0, OP_OACK] + body)[2..] == body;
    FlattenNulFree(pairs);
    PartsInvertTerminated(Flatten(pairs), []);
    assert Terminated(Flatten(pairs)) + [] == Terminated(Flatten(pairs));
    CollectHolds(pairs);
    HoldsIsEquality(Collect(Flatten(pairs), map[]), order, options);
  }

  lemma AcknowledgedIsPlain(options: map<Bytes, Bytes>, fileLen: nat)
    ensures BLKSIZE != TSIZE
    ensures forall k | k in Acknowledged(options, fileLen) ::
              NulFree(k) && NulFree(Acknowledged(options, fileLen)[k]) && Lower(k) == k
  {
    var acked := Acknowledged(options, fileLen);
    DecimalDigits(BlockSize(options));
    DecimalDigits(fileLen);
    assert |BLKSIZE| != |TSIZE|;
    forall k | k in acked ensures NulFree(k) && NulFree(acked[k]) && Lower(k) == k {
      assert k == BLKSIZE || k == TSIZE;
    }
  }

  /** A client that asked for a block size decodes exactly the size the stream uses, never above what it asked for. */
  lemma NegotiatedBlockSize(options: map<Bytes, Bytes>, fileLen: nat, order: seq<Bytes>)
    requires Enumerates(order, Acknowledged(options, fileLen)) && BLKSIZE in options
    ensures var told := DecodeOack([0, 6] + Terminated(Flatten(PairsIn(order, Acknowledged(options, fileLen)))));
            && BLKSIZE in told
            && ParseUsize(told[BLKSIZE]) == Some(BlockSize(options))
    ensures ParseUsize(options[BLKSIZE]).Some? ==> BlockSize(options) <= ParseUsize(options[BLKSIZE]).value
    ensures BlockSize(options) <= MAX_BLOCK_SIZE
  {
    DecimalRoundTrip(BlockSize(options));
    AcknowledgedIsPlain(options, fileLen);
    OackRoundTrip(Acknowledged(options, fileLen), order);
  }

  // ------------------------------------------------------ literal meanings

  function AsciiByte(c: char): byte {
    if c as int < 128 then c as int else 63
  }

  function Ascii(s: string): Bytes {
    seq(|s|, i requires 0 <= i < |s| => AsciiByte(s[i]))
  }

  const UPPER := "ABCDEFGHIJKLMNOPQRSTUVWXYZ"
  const LOWER := "abcdefghijklmnopqrstuvwxyz"

  /** Lower-casing maps the letters of the alphabet one by one and leaves every other byte alone. */
  lemma LowerLetters(b: byte)
    ensures forall i | 0 <= i < 26 :: b as int == UPPER[i] as int ==> LowerByte(b) as int == LOWER[i] as int
    ensures (forall i | 0 <= i < 26 :: b as int != UPPER[i] as int) ==> LowerByte(b) == b
  {
    assert forall i | 0 <= i < 26 :: UPPER[i] as int == 65 + i && LOWER[i] as int == 97 + i;
    assert 65 <= b <= 90 ==> UPPER[b - 65] as int == b as int;
  }

  /** The server honours the options of these names. */
  lemma OptionNames()
    ensures BLKSIZE == Ascii("blksize") && TSIZE == Ascii("tsize")
  {
    assert |Ascii("blksize")| == |BLKSIZE| && |Ascii("tsize")| == |TSIZE|;
  }

  /** The block size is what was asked for up to 1428, and 512 when nothing usable was. */
  lemma BlockSizeExact(options: map<Bytes, Bytes>)
    ensures BLKSIZE !in options ==> BlockSize(options) == 512
    ensures BLKSIZE in options && ParseUsize(options[BLKSIZE]).None? ==> BlockSize(options) == 512
    ensures forall n: nat | n <= 1428 && BLKSIZE in options :: options[BLKSIZE] == ToDecimal(n) ==>
        BlockSize(options) == n
    ensures forall n: nat | 1428 < n < USIZE_LIMIT && BLKSIZE in options ::
              options[BLKSIZE] == ToDecimal(n) ==> BlockSize(options) == 1428
  {
    forall n: nat | n < USIZE_LIMIT ensures ParseUsize(ToDecimal(n)) == Some(n) {
      DecimalRoundTrip(n);
    }
  }

  /** Numbers may have a plus sign and leading zeros; anything with another byte in it is no number. */
  lemma NumberForms(n: nat, s: Bytes, b: byte)
    requires n < USIZE_LIMIT
    ensures ParseUsize([43] + ToDecimal(n)) == Some(n)
    ensures b in s && !IsDigit(b) && b != 43 ==> ParseUsize(s) == None
    ensures ParseUsize([]) == None && ParseUsize([43]) == None
    ensures ParseUsize(ToDecimal(USIZE_LIMIT + n)) == None
  {
    DecimalDigits(USIZE_LIMIT + n);
    assert ToDecimal(USIZE_LIMIT + n)[0] in ToDecimal(USIZE_LIMIT + n);
    DecimalDigits(n);
    assert ([43] + ToDecimal(n))[1..] == ToDecimal(n);
    if b in s && b != 43 && s[0] == 43 {
      assert s == [43] + s[1..];
    }
  }

  /** The client is told exactly the options it asked for: the block size in use and the length of the file. */
  lemma ToldWhatWasAsked(options: map<Bytes, Bytes>, fileLen: nat, order: seq<Bytes>)
    requires fileLen < USIZE_LIMIT && Enumerates(order, Acknowledged(options, fileLen))
    ensures var told := DecodeOack([0, 6] + Terminated(Flatten(PairsIn(order, Acknowledged(options, fileLen)))));
            && told.Keys == options.Keys * {BLKSIZE, TSIZE}
            && (BLKSIZE in options ==> ParseUsize(told[BLKSIZE]) == Some(BlockSize(options)))
            && (TSIZE in options ==> ParseUsize(told[TSIZE]) == Some(fileLen))
  {
    DecimalRoundTrip(BlockSize(options));
    DecimalRoundTrip(fileLen);
    AcknowledgedIsPlain(options, fileLen);
    OackRoundTrip(Acknowledged(options, fileLen), order);
  }
}
