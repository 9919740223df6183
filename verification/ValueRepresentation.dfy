/** NaN-boxed values: a 64-bit word is either a double or, when its exponent is all ones and its
    type nibble is not zero, a tagged 32-bit payload.  A double is carried as its bit pattern. */
module ValueRepresentation {
  import opened Integers
  import opened Wrappers

  const TWO_48: nat := 0x1_0000_0000_0000
  const TWO_52: nat := 0x10_0000_0000_0000
  const TWO_64: nat := 0x1_0000_0000_0000_0000
  const NAN_BITS: nat := 0x7ff * TWO_52

  type Word = w: nat | w < TWO_64

  /** A language value; strings and objects are positions in the heap. */
  datatype Value =
    | Undefined
    | Null
    | Boolean(b: bool)
    | Number(bits: Word)
    | String(pos: nat)
    | Object(pos: nat)
    | Reference

  const TAG_STRING: nat := 4
  const TAG_OBJECT: nat := 5

  predicate AllOnesExponent(w: Word) {
    (w / TWO_52) % 2048 == 0x7ff
  }

  function TypeNibble(w: Word): nat {
    (w / TWO_48) % 16
  }

  predicate IsSpecial(w: Word) {
    AllOnesExponent(w) && TypeNibble(w) != 0
  }

  /** A double is NaN when its exponent is all ones and its fraction is not zero. */
  predicate IsNaN(bits: Word) {
    AllOnesExponent(bits) && bits % TWO_52 != 0
  }

  /** `type` is the index of the kind in the value_type enumeration. */
  function MakeRepr(tag: nat, payload: nat): (w: Word)
    requires tag <= TAG_OBJECT && payload < TWO_TO_THE_32
  {
    NAN_BITS + (tag + 1) * TWO_48 + payload
  }

  function NumberRepr(bits: Word): Word {
    if IsNaN(bits) then NAN_BITS + 1 else bits
  }

  /** What the conversion to a stored word accepts: no references, and positions of 32 bits. */
  predicate Storable(v: Value) {
    match v
    case Reference => false
    case String(p) => p < TWO_TO_THE_32
    case Object(p) => p < TWO_TO_THE_32
    case _ => true
  }

  function Encode(v: Value): (w: Word)
    requires Storable(v)
  {
    match v
    case Undefined => MakeRepr(0, 0)
    case Null => MakeRepr(1, 0)
    case Boolean(b) => MakeRepr(2, if b then 1 else 0)
    case Number(bits) => NumberRepr(bits)
    case String(p) => MakeRepr(TAG_STRING, p)
    case Object(p) => MakeRepr(TAG_OBJECT, p)
  }

  function Low(w: Word): nat {
    w % TWO_TO_THE_32
  }

  /** get_value; the tags without a case of their own are reported as an error. */
  function Decode(w: Word): Option<Value> {
    if !IsSpecial(w) then Some(Number(w)) else
    match TypeNibble(w) - 1
    case 0 => Some(Undefined)
    case 1 => Some(Null)
    case 2 => Some(Boolean(Low(w) != 0))
    case 4 => Some(String(Low(w)))
    case 5 => Some(Object(Low(w)))
    case _ => None
  }

  /** fixup registers the low half of the word exactly for these. */
  predicate HoldsPosition(w: Word) {
    IsSpecial(w) && (TypeNibble(w) - 1 == TAG_STRING || TypeNibble(w) - 1 == TAG_OBJECT)
  }

  /** The store the collector makes through the registered 32-bit address. */
  function WithLow(w: Word, p: nat): (r: Word)
    requires p < TWO_TO_THE_32
  {
    w - Low(w) + p
  }

  /** All NaNs are one value. */
  function Canonical(v: Value): Value {
    if v.Number? then Number(NumberRepr(v.bits)) else v
  }

  lemma MakeReprParts(tag: nat, payload: nat)
    requires tag <= TAG_OBJECT && payload < TWO_TO_THE_32
    ensures IsSpecial(MakeRepr(tag, payload))
    ensures TypeNibble(MakeRepr(tag, payload)) == tag + 1
    ensures Low(MakeRepr(tag, payload)) == payload
  {
    var w := MakeRepr(tag, payload);
    assert w / TWO_52 == 0x7ff;
    assert w / TWO_48 == 0x7ff * 16 + tag + 1;
  }

  lemma NumbersAreNotSpecial(bits: Word)
    ensures !IsSpecial(NumberRepr(bits))
  {
    if AllOnesExponent(bits) && !IsNaN(bits) {
      assert bits == (bits / TWO_52) * TWO_52;
      assert bits / TWO_48 == (bits / TWO_52) * 16;
    }
  }

  /** Decoding undoes encoding for every kind of value. */
  lemma DecodeEncode(v: Value)
    requires Storable(v)
    ensures Decode(Encode(v)) == Some(Canonical(v))
  {
    match v
    case Undefined => MakeReprParts(0, 0);
    case Null => MakeReprParts(1, 0);
    case Boolean(b) => MakeReprParts(2, if b then 1 else 0);
    case Number(bits) => NumbersAreNotSpecial(bits);
    case String(p) => MakeReprParts(TAG_STRING, p);
    case Object(p) => MakeReprParts(TAG_OBJECT, p);
  }

  /** Two values share a word only if they are the same value up to the choice of NaN. */
  lemma EncodeInjective(v: Value, v': Value)
    requires Storable(v) && Storable(v')
    ensures Encode(v) == Encode(v') <==> Canonical(v) == Canonical(v')
  {
    DecodeEncode(v);
    DecodeEncode(v');
    if Canonical(v) == Canonical(v') && v.Number? {
      assert Canonical(v).bits == Canonical(v').bits;
    }
  }

  /** A fixed-up word keeps its tag and holds the position stored through the registered address. */
  lemma WithLowKeepsTag(w: Word, p: nat)
    requires p < TWO_TO_THE_32
    ensures HoldsPosition(WithLow(w, p)) == HoldsPosition(w)
    ensures Low(WithLow(w, p)) == p
    ensures forall q: nat | q < TWO_TO_THE_32 :: WithLow(WithLow(w, p), q) == WithLow(w, q)
    ensures WithLow(w, Low(w)) == w
  {
    var r := WithLow(w, p);
    var hi := w / TWO_TO_THE_32;
    assert w == hi * TWO_TO_THE_32 + Low(w);
    assert r == hi * TWO_TO_THE_32 + p;
    assert w / TWO_48 == hi / 0x1_0000 == r / TWO_48;
    assert w / TWO_52 == hi / 0x10_0000 == r / TWO_52;
  }

  /** A word registered for fixup decodes to a string or an object, and after the collector has
      stored a new position it decodes to the same kind at that position. */
  lemma FixupMovesValue(v: Value, p: nat)
    requires Storable(v) && p < TWO_TO_THE_32
    ensures HoldsPosition(Encode(v)) <==> v.String? || v.Object?
    ensures v.String? || v.Object? ==> Low(Encode(v)) == v.pos
    ensures v.String? ==> Decode(WithLow(Encode(v), p)) == Some(String(p))
    ensures v.Object? ==> Decode(WithLow(Encode(v), p)) == Some(Object(p))
  {
    DecodeEncode(v);
    match v
    case Undefined => MakeReprParts(0, 0);
    case Null => MakeReprParts(1, 0);
    case Boolean(b) => MakeReprParts(2, if b then 1 else 0);
    case Number(bits) => NumbersAreNotSpecial(bits);
    case String(q) => MakeReprParts(TAG_STRING, q); MakeReprParts(TAG_STRING, p);
    case Object(q) => MakeReprParts(TAG_OBJECT, q); MakeReprParts(TAG_OBJECT, p);
  }

  /** The words with a registered position are those that decode to a string or an object. */
  lemma HeldPosition(w: Word)
    ensures HoldsPosition(w) <==> Decode(w) == Some(String(Low(w))) || Decode(w) == Some(Object(Low(w)))
    ensures Decode(w).Some? && (Decode(w).value.String? || Decode(w).value.Object?) ==> HoldsPosition(w)
  {
  }

  /** Whatever word holds a position: the store changes where the value is and not what it is. */
  lemma StoreMovesValue(w: Word, p: nat)
    requires HoldsPosition(w) && p < TWO_TO_THE_32
    ensures Decode(w).value.String? ==> Decode(WithLow(w, p)) == Some(String(p))
    ensures Decode(w).value.Object? ==> Decode(WithLow(w, p)) == Some(Object(p))
  {
    WithLowKeepsTag(w, p);
    var hi := w / TWO_TO_THE_32;
    assert w == hi * TWO_TO_THE_32 + Low(w) && WithLow(w, p) == hi * TWO_TO_THE_32 + p;
    assert w / TWO_48 == hi / 0x1_0000 == WithLow(w, p) / TWO_48;
  }
}
