/** How the two builds of `ViscaRangeDictionary` relate: on the same
    dictionary they agree everywhere except in `GetByte`, where the camera
    build answers for bounds the property-dictionary build rejects. */
module RangeDictionaryVariants {
  import opened ViscaTypes
  import opened LimitsRegistry
  import P = PropertyRangeDictionary
  import C = CameraRangeDictionary

  /** Lookups and int reshapes are the same in both builds. */
  lemma GetAndGetIntAgree(p: P.ViscaRangeDictionary, c: C.ViscaRangeDictionary, name: string, rangeLimits: RangeLimitsCtor)
    requires p.dict == c.dict
    ensures p.Get(name) == c.Get(name)
    ensures p.GetInt(name, rangeLimits) == c.GetInt(name, rangeLimits)
  {
  }

  /** Whenever the checking build gives byte limits, the truncating build
      gives the very same ones. */
  lemma GetByteAgreesWhenChecked(p: P.ViscaRangeDictionary, c: C.ViscaRangeDictionary, name: string, rangeLimits: RangeLimitsCtor)
    requires p.dict == c.dict
    requires p.GetByte(name, rangeLimits).Ok?
    ensures c.GetByte(name, rangeLimits) == p.GetByte(name, rangeLimits)
  {
  }

  /** On an entry with a bound outside [0, 255] the checking build fails,
      while the truncating build answers with the bounds modulo 256 whenever
      the range-limits constructor accepts them. */
  lemma GetByteDivergesOutOfRange(p: P.ViscaRangeDictionary, c: C.ViscaRangeDictionary, name: string, rangeLimits: RangeLimitsCtor)
    requires p.dict == c.dict
    requires p.Get(name).Ok?
    requires var l := p.Get(name).value; !(0 <= l.low <= 255 && 0 <= l.high <= 255)
    ensures p.GetByte(name, rangeLimits) == Err(NotUsableAsByte(name))
    ensures var l := p.Get(name).value;
      c.GetByte(name, rangeLimits) ==
        if rangeLimits(ToByte(l.low) as int, ToByte(l.high) as int, l.message)
        then Ok(RangeLimits(ToByte(l.low), ToByte(l.high), l.message))
        else Err(NotValidForInt(name))
  {
  }

  /** A concrete case: limits 0..256 registered as "Zoom". With a
      constructor that accepts every range, the checking build refuses them
      and the truncating build returns 0..0. */
  lemma ZoomUpTo256(p: P.ViscaRangeDictionary, c: C.ViscaRangeDictionary)
    requires p.dict == c.dict == map["Zoom" := Limits("Zoom", 0, 256, "zoom", None)]
    ensures p.GetByte("Zoom", (lo, hi, m) => true) == Err(NotUsableAsByte("Zoom"))
    ensures c.GetByte("Zoom", (lo, hi, m) => true) == Ok(RangeLimits(0, 0, "zoom"))
  {
    assert ToByte(256) == 0;
  }
}
