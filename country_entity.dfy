/** The `Country` entity (src/countries/country.entity.ts): its column limits and the
    `normalize` hook that runs before every validation, on create and on update. */
module CountryEntity {
  import opened Text
  import opened JsValue

  /** `id` is `SMALLINT`: its sequence stops at the largest signed 16-bit value. */
  const IdMax: nat := 32767
  /** `iso2` is `CHAR(2)`. */
  const Iso2Width: nat := 2
  /** `name` is `STRING(100)`. */
  const NameWidth: nat := 100

  /** No lower-case ASCII letter occurs. */
  predicate NoLowerAscii(s: string)
  {
    forall i :: 0 <= i < |s| ==> !('a' <= s[i] <= 'z')
  }

  /** What `normalize` makes of a string `iso2`: trimmed, then upper-cased. */
  function NormalizeIso2(s: string): (r: string)
    ensures IsTrimmed(r) && NoLowerAscii(r)
    ensures |r| == |Trim(s)|
  {
    ToUpperKeepsTrimmed(Trim(s));
    ToUpper(Trim(s))
  }

  /** What `normalize` makes of a string `name`: trimmed, case kept. */
  function NormalizeName(s: string): (r: string)
    ensures IsTrimmed(r) && |r| <= |s|
  {
    Trim(s)
  }

  /** A normalized code is its own normalization. */
  lemma NormalizeIso2Fixed(s: string)
    requires IsTrimmed(s) && NoLowerAscii(s)
    ensures NormalizeIso2(s) == s
  {
    TrimOfTrimmed(s);
    assert ToUpper(s) == s;
  }

  lemma NormalizeIso2Idempotent(s: string)
    ensures NormalizeIso2(NormalizeIso2(s)) == NormalizeIso2(s)
  {
    NormalizeIso2Fixed(NormalizeIso2(s));
  }

  lemma NormalizeNameIdempotent(s: string)
    ensures NormalizeName(NormalizeName(s)) == NormalizeName(s)
  {
    TrimIdempotent(s);
  }

  /** The `iso2` field after the hook: a string is normalized, any other value is kept. */
  function NormalizedIso2Field(v: Value): (r: Value)
    ensures v.Str? ==> r == Str(NormalizeIso2(v.s))
    ensures !v.Str? ==> r == v
  {
    if v.Str? then Str(NormalizeIso2(v.s)) else v
  }

  /** The `name` field after the hook. */
  function NormalizedNameField(v: Value): (r: Value)
    ensures v.Str? ==> r == Str(NormalizeName(v.s))
    ensures !v.Str? ==> r == v
  {
    if v.Str? then Str(NormalizeName(v.s)) else v
  }

  /** Running the hook twice leaves what running it once leaves. */
  lemma NormalizeFieldsIdempotent(iso2: Value, name: Value)
    ensures NormalizedIso2Field(NormalizedIso2Field(iso2)) == NormalizedIso2Field(iso2)
    ensures NormalizedNameField(NormalizedNameField(name)) == NormalizedNameField(name)
  {
    if iso2.Str? {
      NormalizeIso2Idempotent(iso2.s);
    }
    if name.Str? {
      NormalizeNameIdempotent(name.s);
    }
  }

  /** A `Country` instance as the hook sees it: the fields may hold any value before
      validation. */
  class CountryInstance {
    var id: Value
    var iso2: Value
    var name: Value

    constructor(id: Value, iso2: Value, name: Value)
      ensures this.id == id && this.iso2 == iso2 && this.name == name
    {
      this.id := id;
      this.iso2 := iso2;
      this.name := name;
    }

    /** `normalize`: rewrites a string `iso2` and a string `name` in place. */
    method Normalize()
      modifies this
      ensures iso2 == NormalizedIso2Field(old(iso2))
      ensures name == NormalizedNameField(old(name))
      ensures id == old(id)
    {
      if iso2.Str? {
        iso2 := Str(ToUpper(Trim(iso2.s)));
      }
      if name.Str? {
        name := Str(Trim(name.s));
      }
    }
  }
}
