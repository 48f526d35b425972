/** The canonical byte encoding of a feature vector that is fed to the digest. */
module FeatureVectorHash {
  import opened Common

  const NUM_FEATURES := 590
  const NULL_MARKER: byte := 0
  const NUMBER_MARKER: byte := 1

  type byte = x: nat | x < 256

  /** A double by its bit pattern. */
  type Bits = x: nat | x < 0x1_0000_0000_0000_0000

  const NEGATIVE_ZERO: Bits := 0x8000_0000_0000_0000

  /** A JSON value; a number is the double it denotes. */
  datatype Value = Null | Number(bits: Bits) | Other

  /** A JSON object: its keys have no order. */
  type Features = map<string, Value>

  /** A slot of the vector; None is null. */
  type Slot = Option<Bits>

  datatype HashError = WrongSize(size: nat) | MissingKey(key: string) | NotNumeric(key: string) | NotFinite(key: string)

  /** The exponent is not all ones. */
  predicate IsFinite(bits: Bits) {
    (bits / 0x10_0000_0000_0000) % 0x800 != 0x7ff
  }

  /** -0.0 becomes 0.0, every other number stays. */
  function Normalize(bits: Bits): Bits {
    if bits == 0 || bits == NEGATIVE_ZERO then 0 else bits
  }

  // -------------------------------------------------------------------- keys

  function Digit(d: nat): char
    requires d < 10
  {
    '0' + d as char
  }

  /** `String.format("f%03d", index)` for an index below 1000. */
  function FeatureKey(index: nat): (key: string)
    requires index < 1000
    ensures |key| == 4
  {
    ['f', Digit(index / 100), Digit(index / 10 % 10), Digit(index % 10)]
  }

  /** The key is an f and the three digits of the index. */
  lemma FeatureKeyReads(index: nat)
    requires index < 1000
    ensures var key := FeatureKey(index);
            && key[0] == 'f' && '0' <= key[1] <= '9' && '0' <= key[2] <= '9' && '0' <= key[3] <= '9'
            && (key[1] as int - '0' as int) * 100 + (key[2] as int - '0' as int) * 10 + (key[3] as int - '0' as int) == index
  {
  }

  lemma DigitsDecide(i: nat, j: nat)
    requires i < 1000 && j < 1000 && i / 100 == j / 100 && i / 10 % 10 == j / 10 % 10 && i % 10 == j % 10
    ensures i == j
  {
  }

  lemma DigitsDiffer(c: nat, d: nat)
    requires c < 10 && d < 10 && Digit(c) == Digit(d)
    ensures c == d
  {
  }

  lemma FeatureKeysDiffer(i: nat, j: nat)
    requires i < 1000 && j < 1000 && FeatureKey(i) == FeatureKey(j)
    ensures i == j
  {
    var a, b := FeatureKey(i), FeatureKey(j);
    assert a[1] == b[1] && a[2] == b[2] && a[3] == b[3];
    DigitsDiffer(i / 100, j / 100);
    DigitsDiffer(i / 10 % 10, j / 10 % 10);
    DigitsDiffer(i % 10, j % 10);
    DigitsDecide(i, j);
  }

  function CanonicalKeys(n: nat): set<string>
    requires n <= 1000
  {
    set i | 0 <= i < n :: FeatureKey(i)
  }

  lemma KeyIsNew(n: nat)
    requires n < 1000
    ensures FeatureKey(n) !in CanonicalKeys(n)
    ensures CanonicalKeys(n + 1) == CanonicalKeys(n) + {FeatureKey(n)}
  {
    forall i | 0 <= i < n ensures FeatureKey(i) != FeatureKey(n) {
      if FeatureKey(i) == FeatureKey(n) { FeatureKeysDiffer(i, n); }
    }
  }

  lemma {:induction false} CanonicalKeyCount(n: nat)
    requires n <= 1000
    ensures |CanonicalKeys(n)| == n
  {
    if n > 0 {
      CanonicalKeyCount(n - 1);
      KeyIsNew(n - 1);
    }
  }

  lemma EqualCardinality<T>(s: set<T>, t: set<T>)
    requires s <= t && |s| == |t|
    ensures s == t
  {
    assert t == s + (t - s);
    assert |t - s| == 0;
  }

  // ---------------------------------------------------------------- encoding

  /** The slot for a feature. */
  function SlotOf(features: Features, index: nat): Result<Slot, HashError>
    requires index < NUM_FEATURES
  {
    var key := FeatureKey(index);
    if key !in features then Err(MissingKey(key))
    else
      match features[key]
      case Null => Ok(None)
      case Other => Err(NotNumeric(key))
      case Number(bits) => if IsFinite(bits) then Ok(Some(Normalize(bits))) else Err(NotFinite(key))
  }

  /** The first `n` slots; the first failing index decides the error. */
  function Slots(features: Features, n: nat): (r: Result<seq<Slot>, HashError>)
    requires n <= NUM_FEATURES
    ensures r.Ok? ==> |r.value| == n
  {
    if n == 0 then Ok([])
    else
      match Slots(features, n - 1)
      case Err(e) => Err(e)
      case Ok(slots) =>
        match SlotOf(features, n - 1) {
          case Err(e) => Err(e)
          case Ok(slot) => Ok(slots + [slot])
        }
  }

  /** The vector, or why the object is not accepted. */
  function Vector(features: Features): Result<seq<Slot>, HashError> {
    if |features.Keys| != NUM_FEATURES then Err(WrongSize(|features.Keys|)) else Slots(features, NUM_FEATURES)
  }

  /** The last `k` bytes of a number, most significant first. */
  function BigEndian(n: nat, k: nat): (s: seq<byte>)
    ensures |s| == k
  {
    if k == 0 then [] else BigEndian(n / 256, k - 1) + [n % 256]
  }

  function EncodeSlot(slot: Slot): seq<byte> {
    match slot
    case None => [NULL_MARKER]
    case Some(bits) => [NUMBER_MARKER] + BigEndian(bits, 8)
  }

  function Concatenate<T>(encode: T -> seq<byte>, s: seq<T>): seq<byte> {
    if s == [] then [] else Concatenate(encode, s[..|s| - 1]) + encode(s[|s| - 1])
  }

  function EncodeSlots(slots: seq<Slot>): seq<byte> {
    Concatenate(EncodeSlot, slots)
  }

  function Prefix(): seq<byte> {
    seq(|DOMAIN|, k requires 0 <= k < |DOMAIN| => DOMAIN[k] as int % 256)
  }

  const DOMAIN := "secom-feature-vector:v1\0"

  /** The bytes fed to the digest. */
  function DigestInput(features: Features): Result<seq<byte>, HashError> {
    match Vector(features)
    case Ok(slots) => Ok(Prefix() + EncodeSlots(slots))
    case Err(e) => Err(e)
  }

  /** `numberBytes.putLong` after `clear`. */
  method PutLong(buffer: array<byte>, bits: Bits)
    requires buffer.Length == 8
    modifies buffer
    ensures buffer[..] == BigEndian(bits, 8)
  {
    var rest, k := bits, 8;
    while k > 0
      invariant 0 <= k <= 8
      invariant BigEndian(rest, k) + buffer[k..] == BigEndian(bits, 8)
    {
      assert BigEndian(rest, k) == BigEndian(rest / 256, k - 1) + [rest % 256];
      k := k - 1;
      ghost var done := buffer[k + 1..];
      buffer[k] := rest % 256;
      rest := rest / 256;
      assert buffer[k..] == [buffer[k]] + done;
    }
  }

  /** The checks of one turn of the loop. */
  method ReadSlot(features: Features, index: nat) returns (r: Result<Slot, HashError>)
    requires index < NUM_FEATURES
    ensures r == SlotOf(features, index)
  {
    var key := FeatureKey(index);
    if key !in features {
      return Err(MissingKey(key));
    }
    var value := features[key];
    if value.Null? {
      return Ok(None);
    }
    if !value.Number? {
      return Err(NotNumeric(key));
    }
    if !IsFinite(value.bits) {
      return Err(NotFinite(key));
    }
    var number := value.bits;
    if number == 0 || number == NEGATIVE_ZERO {
      number := 0;
    }
    return Ok(Some(number));
  }

  /** What one turn feeds; the buffer is reused for all numbers. */
  method SlotBytes(slot: Slot, buffer: array<byte>) returns (bytes: seq<byte>)
    requires buffer.Length == 8
    modifies buffer
    ensures bytes == EncodeSlot(slot)
  {
    if slot.None? {
      return [NULL_MARKER];
    }
    PutLong(buffer, slot.value);
    return [NUMBER_MARKER] + buffer[..];
  }

  /** The loop of `compute`. */
  method FeedSlots(features: Features) returns (r: Result<seq<byte>, HashError>)
    ensures r == match Slots(features, NUM_FEATURES) { case Ok(slots) => Ok(Prefix() + EncodeSlots(slots)) case Err(e) => Err(e) }
  {
    var fed: seq<byte> := Prefix();
    var buffer := new byte[8](_ => 0);
    ghost var slots: seq<Slot> := [];
    var index := 0;
    while index < NUM_FEATURES
      invariant 0 <= index <= NUM_FEATURES
      invariant Slots(features, index) == Ok(slots) && fed == Prefix() + EncodeSlots(slots)
    {
      var slot := ReadSlot(features, index);
      if slot.Err? {
        FailsAt(features, index, NUM_FEATURES);
        return Err(slot.error);
      }
      var bytes := SlotBytes(slot.value, buffer);
      OneMore(features, index, slots, slot.value);
      fed := fed + bytes;
      slots := slots + [slot.value];
      index := index + 1;
    }
    return Ok(fed);
  }

  lemma OneMore(features: Features, index: nat, slots: seq<Slot>, slot: Slot)
    requires index < NUM_FEATURES && Slots(features, index) == Ok(slots) && SlotOf(features, index) == Ok(slot)
    ensures Slots(features, index + 1) == Ok(slots + [slot])
    ensures Prefix() + EncodeSlots(slots + [slot]) == Prefix() + EncodeSlots(slots) + EncodeSlot(slot)
  {
    ConcatenateOneMore(EncodeSlot, slots, slot);
    assert Prefix() + (EncodeSlots(slots) + EncodeSlot(slot)) == Prefix() + EncodeSlots(slots) + EncodeSlot(slot);
  }

  /** `compute` up to the digest. */
  method Feed(features: Features) returns (r: Result<seq<byte>, HashError>)
    ensures r == DigestInput(features)
  {
    if |features.Keys| != NUM_FEATURES {
      return Err(WrongSize(|features.Keys|));
    }
    r := FeedSlots(features);
  }

  lemma ConcatenateOneMore<T>(encode: T -> seq<byte>, s: seq<T>, x: T)
    ensures Concatenate(encode, s + [x]) == Concatenate(encode, s) + encode(x)
  {
    assert (s + [x])[..|s|] == s;
  }

  lemma {:induction false} FailsAt(features: Features, index: nat, n: nat)
    requires index < n <= NUM_FEATURES && Slots(features, index).Ok? && SlotOf(features, index).Err?
    ensures Slots(features, n) == Err(SlotOf(features, index).error)
  {
    if index < n - 1 { FailsAt(features, index, n - 1); }
  }

  // ---------------------------------------------------------------- decoding

  function NumberOf(s: seq<byte>): nat {
    if s == [] then 0 else NumberOf(s[..|s| - 1]) * 256 + s[|s| - 1]
  }

  function Power(k: nat): nat {
    if k == 0 then 1 else 256 * Power(k - 1)
  }

  /** Reads slots from the front; None when the bytes are no encoding. */
  function Decode(s: seq<byte>): Option<seq<Slot>>
    decreases |s|
  {
    if s == [] then Some([])
    else if s[0] == 0 then
      match Decode(s[1..])
      case Some(rest) => Some([None] + rest)
      case None => Option.None
    else if s[0] == 1 && |s| >= 9 && NumberOf(s[1..9]) < 0x1_0000_0000_0000_0000 then
      match Decode(s[9..])
      case Some(rest) => Some([Some(NumberOf(s[1..9]))] + rest)
      case None => Option.None
    else Option.None
  }

  lemma {:induction false} BytesGiveNumber(n: nat, k: nat)
    requires n < Power(k)
    ensures NumberOf(BigEndian(n, k)) == n
  {
    if k > 0 {
      BytesGiveNumber(n / 256, k - 1);
      assert BigEndian(n, k)[..k - 1] == BigEndian(n / 256, k - 1);
    }
  }

  lemma EightBytes()
    ensures Power(8) == 0x1_0000_0000_0000_0000
  {
    assert Power(4) == 0x1_0000_0000;
    assert Power(5) == 0x100_0000_0000;
    assert Power(6) == 0x1_0000_0000_0000;
    assert Power(7) == 0x100_0000_0000_0000;
  }

  lemma DecodeFirst(slot: Slot, rest: seq<byte>)
    ensures Decode(EncodeSlot(slot) + rest)
            == match Decode(rest) { case Some(slots) => Some([slot] + slots) case None => Option.None }
  {
    var s := EncodeSlot(slot) + rest;
    match slot
    case None => assert s[1..] == rest;
    case Some(bits) =>
      EightBytes();
      BytesGiveNumber(bits, 8);
      assert s[1..9] == BigEndian(bits, 8) && s[9..] == rest;
  }

  lemma {:induction false} ConcatenateFromFront<T>(encode: T -> seq<byte>, s: seq<T>)
    requires s != []
    ensures Concatenate(encode, s) == encode(s[0]) + Concatenate(encode, s[1..])
    decreases |s|
  {
    if |s| == 1 {
      assert s[..0] == [] && s[1..] == [];
    } else {
      var most := s[..|s| - 1];
      ConcatenateFromFront(encode, most);
      assert s[1..][..|s| - 2] == most[1..];
      assert encode(s[0]) + Concatenate(encode, most[1..]) + encode(s[|s| - 1])
          == encode(s[0]) + (Concatenate(encode, most[1..]) + encode(s[|s| - 1]));
    }
  }

  /** The encoding decodes back to the vector. */
  lemma {:induction false} DecodeEncode(slots: seq<Slot>)
    ensures Decode(EncodeSlots(slots)) == Some(slots)
    decreases |slots|
  {
    if slots != [] {
      ConcatenateFromFront(EncodeSlot, slots);
      DecodeEncode(slots[1..]);
      DecodeFirst(slots[0], EncodeSlots(slots[1..]));
      assert [slots[0]] + slots[1..] == slots;
    }
  }

  // -------------------------------------------------------------- consequences

  /** A double that is no infinity and no NaN. */
  predicate Finite(bits: Bits) {
    (bits / 0x10_0000_0000_0000) % 2048 != 2047
  }

  predicate GoodValue(v: Value) {
    v.Null? || (v.Number? && Finite(v.bits))
  }

  /** What is accepted: exactly the 590 canonical keys, each null or a finite number. */
  predicate Acceptable(features: Features) {
    features.Keys == CanonicalKeys(590) && forall key | key in features :: GoodValue(features[key])
  }

  lemma {:induction false} SlotsMeaning(features: Features, n: nat)
    requires n <= NUM_FEATURES
    ensures Slots(features, n).Ok? <==> forall i | 0 <= i < n :: SlotOf(features, i).Ok?
    ensures Slots(features, n).Ok? ==> forall i | 0 <= i < n :: SlotOf(features, i) == Ok(Slots(features, n).value[i])
  {
    if n > 0 { SlotsMeaning(features, n - 1); }
  }

  lemma AcceptedExactlyWhen(features: Features)
    ensures DigestInput(features).Ok? <==> Acceptable(features)
  {
    CanonicalKeyCount(NUM_FEATURES);
    SlotsMeaning(features, NUM_FEATURES);
    if DigestInput(features).Ok? {
      forall key | key in CanonicalKeys(NUM_FEATURES) ensures key in features.Keys {
        var i :| 0 <= i < NUM_FEATURES && key == FeatureKey(i);
        assert SlotOf(features, i).Ok?;
      }
      EqualCardinality(CanonicalKeys(NUM_FEATURES), features.Keys);
      forall key | key in features ensures GoodValue(features[key]) {
        assert key in CanonicalKeys(NUM_FEATURES);
        var i :| 0 <= i < NUM_FEATURES && key == FeatureKey(i);
        assert SlotOf(features, i).Ok?;
      }
    }
    if Acceptable(features) {
      forall i | 0 <= i < NUM_FEATURES ensures SlotOf(features, i).Ok? {
        assert FeatureKey(i) in CanonicalKeys(NUM_FEATURES);
      }
    }
  }

  /** The value of a slot: null, or the bits of the number, where -0.0 has those of 0.0. */
  function SlotValue(v: Value): Slot {
    if !v.Number? then None else if v.bits == 0x8000_0000_0000_0000 then Some(0) else Some(v.bits)
  }

  lemma VectorOfAccepted(f: Features)
    requires Acceptable(f)
    ensures Vector(f).Ok? && DigestInput(f).Ok?
    ensures |Vector(f).value| == NUM_FEATURES
    ensures forall i | 0 <= i < NUM_FEATURES :: FeatureKey(i) in f && Vector(f).value[i] == SlotValue(f[FeatureKey(i)])
  {
    AcceptedExactlyWhen(f);
    SlotsMeaning(f, NUM_FEATURES);
    forall i | 0 <= i < NUM_FEATURES ensures FeatureKey(i) in f && Vector(f).value[i] == SlotValue(f[FeatureKey(i)]) {
      assert FeatureKey(i) in CanonicalKeys(NUM_FEATURES);
      assert SlotOf(f, i) == Ok(Vector(f).value[i]);
    }
  }

  /** The objects agree in every slot. */
  predicate SameSlots(f: Features, g: Features) {
    forall i: nat | i < 590 :: FeatureKey(i) in f && FeatureKey(i) in g && SlotValue(f[FeatureKey(i)]) == SlotValue(g[FeatureKey(i)])
  }

  /** The layout: the domain "secom-feature-vector:v1" with a zero byte, then the 590 slots in the
      order of their numbers, a null as byte 0, a number as byte 1 and its eight bytes. */
  lemma InputLayout(f: Features)
    requires Acceptable(f)
    ensures DigestInput(f).Ok? && |DigestInput(f).value| >= 24
    ensures DigestInput(f).value[..24]
         == [115, 101, 99, 111, 109, 45, 102, 101, 97, 116, 117, 114, 101, 45, 118, 101, 99, 116, 111, 114, 58, 118, 49, 0]
    ensures Decode(DigestInput(f).value[24..]).Some?
    ensures var slots := Decode(DigestInput(f).value[24..]).value;
            |slots| == 590 && forall i: nat | i < 590 :: FeatureKey(i) in f && slots[i] == SlotValue(f[FeatureKey(i)])
  {
    VectorOfAccepted(f);
    var slots := Vector(f).value;
    DomainBytes();
    assert DigestInput(f).value == Prefix() + EncodeSlots(slots);
    assert DigestInput(f).value[24..] == EncodeSlots(slots);
    DecodeEncode(slots);
  }

  lemma DomainBytes()
    ensures Prefix() == [115, 101, 99, 111, 109, 45, 102, 101, 97, 116, 117, 114, 101, 45, 118, 101, 99, 116, 111, 114, 58, 118, 49, 0]
  {
  }

  /** An object that is refused is refused for its size, or for the first slot that is missing,
      not numeric or not finite. */
  lemma RefusedForFirst(f: Features, e: HashError)
    requires DigestInput(f) == Err(e)
    ensures if |f.Keys| != 590 then e == WrongSize(|f.Keys|)
            else exists i: nat :: i < 590 && (forall j: nat | j < i :: FeatureKey(j) in f && GoodValue(f[FeatureKey(j)])) && FailsFor(f, FeatureKey(i), e)
  {
    if |f.Keys| == 590 {
      var i := FirstFailure(f, NUM_FEATURES, e);
    }
  }

  predicate FailsFor(f: Features, key: string, e: HashError) {
    if key !in f then e == MissingKey(key)
    else if f[key].Other? then e == NotNumeric(key)
    else f[key].Number? && !Finite(f[key].bits) && e == NotFinite(key)
  }

  lemma {:induction false} FirstFailure(f: Features, n: nat, e: HashError) returns (i: nat)
    requires n <= NUM_FEATURES && Slots(f, n) == Err(e)
    ensures i < n && (forall j: nat | j < i :: FeatureKey(j) in f && GoodValue(f[FeatureKey(j)])) && FailsFor(f, FeatureKey(i), e)
  {
    if Slots(f, n - 1).Err? {
      i := FirstFailure(f, n - 1, e);
    } else {
      i := n - 1;
      SlotsMeaning(f, n - 1);
      forall j: nat | j < i ensures FeatureKey(j) in f && GoodValue(f[FeatureKey(j)]) { assert SlotOf(f, j).Ok?; }
    }
  }

  /** Two accepted objects feed the same bytes exactly when they agree in every slot. */
  lemma SameInputExactlyWhenSameSlots(f: Features, g: Features)
    requires Acceptable(f) && Acceptable(g)
    ensures DigestInput(f).Ok? && DigestInput(g).Ok?
    ensures DigestInput(f) == DigestInput(g) <==> SameSlots(f, g)
  {
    VectorOfAccepted(f);
    VectorOfAccepted(g);
    var s, t := Vector(f).value, Vector(g).value;
    InputDeterminesVector(s, t);
    if SameSlots(f, g) {
      assert s == t;
    }
  }

  lemma InputDeterminesVector(s: seq<Slot>, t: seq<Slot>)
    ensures Prefix() + EncodeSlots(s) == Prefix() + EncodeSlots(t) ==> s == t
  {
    if Prefix() + EncodeSlots(s) == Prefix() + EncodeSlots(t) {
      assert (Prefix() + EncodeSlots(s))[|Prefix()|..] == EncodeSlots(s);
      assert (Prefix() + EncodeSlots(t))[|Prefix()|..] == EncodeSlots(t);
      DecodeEncode(s);
      DecodeEncode(t);
    }
  }

  lemma ReplacedIsAcceptable(features: Features, index: nat, v: Value)
    requires Acceptable(features) && index < 590 && GoodValue(v)
    ensures Acceptable(features[FeatureKey(index) := v])
  {
    assert FeatureKey(index) in CanonicalKeys(590);
    assert features[FeatureKey(index) := v].Keys == features.Keys;
  }

  /** In one slot: two values feed the same bytes exactly when they are one number after
      -0.0 became 0.0, or both null; in particular null is not zero. */
  lemma SlotDecides(features: Features, index: nat, v: Value, w: Value)
    requires Acceptable(features) && index < 590 && GoodValue(v) && GoodValue(w)
    ensures DigestInput(features[FeatureKey(index) := v]) == DigestInput(features[FeatureKey(index) := w])
            <==> SlotValue(v) == SlotValue(w)
  {
    var f, g := features[FeatureKey(index) := v], features[FeatureKey(index) := w];
    ReplacedIsAcceptable(features, index, v);
    ReplacedIsAcceptable(features, index, w);
    SameInputExactlyWhenSameSlots(f, g);
    if SlotValue(v) == SlotValue(w) {
      forall i: nat | i < 590
        ensures FeatureKey(i) in f && FeatureKey(i) in g && SlotValue(f[FeatureKey(i)]) == SlotValue(g[FeatureKey(i)])
      {
        assert FeatureKey(i) in CanonicalKeys(590);
      }
    }
  }
}
