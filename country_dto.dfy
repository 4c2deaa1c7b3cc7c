/** `CreateCountryDto` and `UpdateCountryDto` (src/countries/country.dto.ts): each field is
    transformed (trimmed, and `iso2` upper-cased) and then validated. */
module CountryDto {
  import opened Common
  import opened Text
  import opened JsValue
  import opened CountryEntity

  datatype CreateCountryDto = CreateCountryDto(iso2: Value, name: Value)
  datatype UpdateCountryDto = UpdateCountryDto(iso2: Value, name: Value)

  /** `@IsOptional()`: `undefined` and `null` skip every other rule. */
  predicate Absent(v: Value)
  {
    v.Undefined? || v.Null?
  }

  /** `@IsString() @Length(2, 2) @Matches(/^[A-Za-z]{2}$/)` on the transformed value. */
  predicate Iso2Accepted(v: Value)
  {
    v.Str? && |v.s| == 2 && IsAsciiLetter(v.s[0]) && IsAsciiLetter(v.s[1])
  }

  /** `@IsString() @Length(1, 255)` on the transformed value, as the DTO declares it. */
  predicate NameAcceptedAsWritten(v: Value)
  {
    v.Str? && 1 <= |v.s| <= 255
  }

  /** The name rule with the bound of the `name` column: `@Length(1, 100)`. */
  predicate NameAccepted(v: Value)
  {
    v.Str? && 1 <= |v.s| <= NameWidth
  }

  /** The `@Transform` of `iso2` is the entity hook's trim and upper-case; that of `name` is
      its trim. */
  predicate ValidCreate(dto: CreateCountryDto)
  {
    Iso2Accepted(NormalizedIso2Field(dto.iso2)) && NameAccepted(NormalizedNameField(dto.name))
  }

  predicate ValidUpdate(dto: UpdateCountryDto)
  {
    && (Absent(dto.iso2) || Iso2Accepted(NormalizedIso2Field(dto.iso2)))
    && (Absent(dto.name) || NameAccepted(NormalizedNameField(dto.name)))
  }

  /** The code a valid create passes on. */
  function CreateIso2(dto: CreateCountryDto): (iso2: string)
    requires ValidCreate(dto)
    ensures |iso2| == 2 && forall i :: 0 <= i < 2 ==> 'A' <= iso2[i] <= 'Z'
    ensures IsTrimmed(iso2) && NormalizeIso2(iso2) == iso2
  {
    var iso2 := NormalizedIso2Field(dto.iso2).s;
    NormalizeIso2Fixed(iso2);
    iso2
  }

  /** The name a valid create passes on. */
  function CreateName(dto: CreateCountryDto): (name: string)
    requires ValidCreate(dto)
    ensures 1 <= |name| <= NameWidth
    ensures IsTrimmed(name) && NormalizeName(name) == name
  {
    var name := NormalizedNameField(dto.name).s;
    TrimOfTrimmed(name);
    name
  }

  /** The code a valid update passes on, if any. */
  function UpdateIso2(dto: UpdateCountryDto): (iso2: Option<string>)
    requires ValidUpdate(dto)
    ensures iso2.Some? <==> !Absent(dto.iso2)
    ensures iso2.Some? ==> |iso2.value| == 2 && NormalizeIso2(iso2.value) == iso2.value
  {
    if Absent(dto.iso2) then None
    else
      NormalizeIso2Idempotent(dto.iso2.s);
      Some(NormalizedIso2Field(dto.iso2).s)
  }

  /** The name a valid update passes on, if any. */
  function UpdateName(dto: UpdateCountryDto): (name: Option<string>)
    requires ValidUpdate(dto)
    ensures name.Some? <==> !Absent(dto.name)
    ensures name.Some? ==> 1 <= |name.value| <= NameWidth && NormalizeName(name.value) == name.value
  {
    if Absent(dto.name) then None
    else
      NormalizeNameIdempotent(dto.name.s);
      Some(NormalizedNameField(dto.name).s)
  }

  /** A code is accepted exactly when it is two ASCII letters once surrounding whitespace is
      removed; the letters may be of either case. */
  lemma Iso2AcceptedIff(s: string)
    ensures Iso2Accepted(NormalizedIso2Field(Str(s))) <==>
      |Trim(s)| == 2 && IsAsciiLetter(Trim(s)[0]) && IsAsciiLetter(Trim(s)[1])
  {
    var t := Trim(s);
    var u := NormalizeIso2(s);
    assert u == ToUpper(t);
    if |t| == 2 {
      assert u[0] == UpperChar(t[0]) && u[1] == UpperChar(t[1]);
    }
  }

  /** In an update a field that is present is transformed and validated exactly as on create. */
  lemma UpdateValidatesLikeCreate(iso2: Value, name: Value)
    requires !Absent(iso2) && !Absent(name)
    ensures ValidUpdate(UpdateCountryDto(iso2, name)) <==> ValidCreate(CreateCountryDto(iso2, name))
  {
  }

  /** As written, the name rule lets through names the `STRING(100)` column cannot hold:
      101 letters pass the DTO and are too wide for the column. */
  lemma NameWiderThanColumn()
    ensures var name := Str(seq(101, _ => 'a'));
      NameAcceptedAsWritten(NormalizedNameField(name)) && |NormalizedNameField(name).s| > NameWidth
  {
    var s: string := seq(101, _ => 'a');
    assert IsTrimmed(s);
    TrimOfTrimmed(s);
  }
}
