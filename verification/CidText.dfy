/** CID text against 46-byte keys: the decoder of the indexer and the size of what it accepts. */
module CidText {
  import opened Types
  import opened Numerals
  import Base58

  function DecodeCid(s: string): Option<Cid> {
    match Base58.Decode(s)
    case None => None
    case Some(b) => if |b| == CID_BYTES then Some(b) else None
  }

  /** Text and key determine each other, so deduplicating by either is the same. */
  lemma DecodeCidExact(s: string, key: Cid)
    ensures DecodeCid(s) == Some(key) <==> s == Base58.Encode(key)
  {
    Base58.Base58Bijection(s, key);
  }

  lemma DedupKeysAgree(s: string, t: string)
    requires DecodeCid(s).Some? && DecodeCid(t).Some?
    ensures s == t <==> DecodeCid(s) == DecodeCid(t)
  {
    DecodeCidExact(s, DecodeCid(s).value);
    DecodeCidExact(t, DecodeCid(t).value);
  }

  /** Accepted text has at most 63 characters. */
  lemma AcceptedLength(s: string)
    requires DecodeCid(s).Some?
    ensures |s| <= 63
  {
    hide Base58.Encode, Pow, Digits, Value;
    var key := DecodeCid(s).value;
    DecodeCidExact(s, key);
    EncodedSize(key);
    KeyBelow(key);
    CharacterCount(LeadingZeros(key), Value(256, key));
  }

  lemma EncodedSize(key: Cid)
    ensures |Base58.Encode(key)| == LeadingZeros(key) + |Digits(58, Value(256, key))|
  {
    hide Digits, Value, LeadingZeros;
  }

  lemma CharacterCount(z: nat, v: nat)
    requires z <= CID_BYTES && v < Pow(256, CID_BYTES - z)
    ensures z + |Digits(58, v)| <= 63
  {
    if v != 0 {
      var j := |Digits(58, v)| - 1;
      DigitsReach(58, v);
      LeadingOnesCost(z, j, v);
      KeySpaceFits();
      if 63 <= z + j {
        PowMonotone(58, 63, z + j);
      }
    }
  }

  /** The bound is reached: the largest key needs all 63 characters. */
  lemma LengthBoundIsTight()
    ensures exists s: string :: |s| == 63 && DecodeCid(s).Some?
  {
    var key: Cid := seq(CID_BYTES, _ => 255);
    var s := Base58.Encode(key);
    DecodeCidExact(s, key);
    AcceptedLength(s);
    EncodedSize(key);
    var v := Value(256, key);
    assert LeadingZeros(key) == 0;
    ValueOfAllOnes(CID_BYTES);
    KeySpaceFits();
    if |Digits(58, v)| < 63 {
      ValueOfDigits(58, v);
      ValueBelow(58, Digits(58, v));
      PowMonotone(58, |Digits(58, v)|, 62);
    }
  }

  lemma {:induction false} ValueOfAllOnes(k: nat)
    ensures Value(256, seq(k, _ => 255)) == Pow(256, k) - 1
  {
    if k != 0 {
      ValueOfAllOnes(k - 1);
      assert seq(k, _ => 255)[..k - 1] == seq(k - 1, _ => 255);
    }
  }

  lemma KeyBelow(key: Cid)
    ensures Value(256, key) < Pow(256, CID_BYTES - LeadingZeros(key))
  {
    var z := LeadingZeros(key);
    assert key == Zeros(z) + key[z..];
    ValueSkipsZeros(256, z, key[z..]);
    ValueBelow(256, key[z..]);
  }

  lemma LeadingOnesCost(z: nat, j: nat, v: nat)
    requires z <= CID_BYTES
    requires Pow(58, j) <= v < Pow(256, CID_BYTES - z)
    ensures Pow(58, z + j) < Pow(256, CID_BYTES)
  {
    PowOfLarger(58, 256, z);
    PowMonotone(256, 0, z);
    PowSplit(58, z, j);
    PowSplit(256, z, CID_BYTES - z);
    MulStrict(Pow(58, z), Pow(256, z), Pow(58, j), Pow(256, CID_BYTES - z));
  }

  lemma MulStrict(p: nat, q: nat, u: nat, r: nat)
    requires p <= q && 1 <= q && u < r
    ensures p * u < q * r
  {
    MulMonotone(p, q, u);
    assert q * (r - u) >= 1;
  }

  /** The key space against the text space: 58^62 < 256^46 < 58^63. */
  lemma KeySpaceFits()
    ensures Pow(58, 62) < Pow(256, CID_BYTES) < Pow(58, 63)
  {
    PowDouble(58, 1, 58);
    PowDouble(58, 3, 195112);
    PowDouble(58, 7, 2207984167552);
    PowDouble(58, 15, 282761256881297307761016832);
    PowDouble(58, 31, 4637327846799278236670872192076827363889989062064340992);
    assert Pow(58, 62)
      == 21504809558700030163870073606465562992782951318167790110896708098865041991943562768090493594240598771251544064;
    PowDouble(256, 1, 256);
    PowDouble(256, 2, 65536);
    PowDouble(256, 5, 1099511627776);
    PowDouble(256, 11, 309485009821345068724781056);
    PowDouble(256, 23, 24519928653854221733733552434404946937899825954937634816);
  }

  lemma PowDouble(b: nat, k: nat, x: nat)
    requires Pow(b, k) == x
    ensures Pow(b, 2 * k) == x * x
    ensures Pow(b, 2 * k + 1) == b * (x * x)
  {
    PowSplit(b, k, k);
  }
}
