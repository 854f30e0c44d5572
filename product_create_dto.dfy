/**
 * The create/update payload and its field constraints.  The annotations
 * `@NotBlank`, `@NotNull` and `@Positive` become one explicit function,
 * `Validate`, that reports every violated field with its own message.
 */
module ProductCreateDto {
  import opened Wrappers

  /** The payload as it arrives: any field may be null. */
  datatype ProductCreate = ProductCreate(name: Option<string>, description: Option<string>, price: Option<real>)

  const NameRequired: string := "O campo 'name' é obrigatório"
  const DescriptionRequired: string := "O campo 'description' é obrigatório"
  const PriceRequired: string := "O campo 'price' é obrigatório"
  const PriceNotPositive: string := "O preço deve ser maior que zero"

  /** The characters `String.trim` removes: code points up to U+0020. */
  predicate IsTrimmed(c: char) {
    c <= ' '
  }

  function TrimStart(s: string): (t: string) {
    if |s| > 0 && IsTrimmed(s[0]) then TrimStart(s[1..]) else s
  }

  function TrimEnd(s: string): (t: string) {
    if |s| > 0 && IsTrimmed(s[|s| - 1]) then TrimEnd(s[..|s| - 1]) else s
  }

  /** `String.trim`: strip leading and trailing characters up to U+0020. */
  function Trim(s: string): (t: string) {
    TrimEnd(TrimStart(s))
  }

  /** The `@NotBlank` test on a non-null string: `s.trim().length() > 0`. */
  predicate NotBlank(s: string) {
    |Trim(s)| > 0
  }

  /** A string is not blank exactly when some character survives trimming. */
  predicate HasVisibleChar(s: string) {
    exists i :: 0 <= i < |s| && !IsTrimmed(s[i])
  }

  lemma {:induction false} TrimStartEmptyIff(s: string)
    ensures |TrimStart(s)| == 0 <==> !HasVisibleChar(s)
  {
    if |s| > 0 && IsTrimmed(s[0]) {
      TrimStartEmptyIff(s[1..]);
      if HasVisibleChar(s) {
        var i :| 0 <= i < |s| && !IsTrimmed(s[i]);
        assert s[1..][i - 1] == s[i];
      }
      if HasVisibleChar(s[1..]) {
        var i :| 0 <= i < |s[1..]| && !IsTrimmed(s[1..][i]);
        assert s[i + 1] == s[1..][i];
      }
    } else if |s| > 0 {
      assert !IsTrimmed(s[0]);
    }
  }

  lemma {:induction false} TrimEndEmptyIff(s: string)
    ensures |TrimEnd(s)| == 0 <==> !HasVisibleChar(s)
  {
    if |s| > 0 && IsTrimmed(s[|s| - 1]) {
      var t := s[..|s| - 1];
      TrimEndEmptyIff(t);
      if HasVisibleChar(s) {
        var i :| 0 <= i < |s| && !IsTrimmed(s[i]);
        assert t[i] == s[i];
      }
      if HasVisibleChar(t) {
        var i :| 0 <= i < |t| && !IsTrimmed(t[i]);
        assert s[i] == t[i];
      }
    } else if |s| > 0 {
      assert !IsTrimmed(s[|s| - 1]);
    }
  }

  lemma {:induction false} TrimStartKeepsFirstVisible(s: string)
    requires HasVisibleChar(s)
    ensures HasVisibleChar(TrimStart(s))
  {
    TrimStartEmptyIff(s);
    var t := TrimStart(s);
    TrimStartShape(s);
    assert !IsTrimmed(t[0]);
  }

  lemma {:induction false} TrimStartShape(s: string)
    ensures |TrimStart(s)| > 0 ==> !IsTrimmed(TrimStart(s)[0])
  {
    if |s| > 0 && IsTrimmed(s[0]) {
      TrimStartShape(s[1..]);
    }
  }

  /** `NotBlank` holds exactly when the string has a character above U+0020. */
  lemma NotBlankIff(s: string)
    ensures NotBlank(s) <==> HasVisibleChar(s)
  {
    TrimEndEmptyIff(TrimStart(s));
    TrimStartEmptyIff(s);
    if HasVisibleChar(s) {
      TrimStartKeepsFirstVisible(s);
    }
  }

  /** `@NotBlank`: null is rejected, and so is a string of blanks. */
  predicate FieldPresent(f: Option<string>) {
    f.Some? && NotBlank(f.value)
  }

  /** `@NotNull` then `@Positive` (which accepts null, so only one fails). */
  function PriceError(price: Option<real>): (message: Option<string>) {
    match price
    case None => Some(PriceRequired)
    case Some(p) => if p > 0.0 then None else Some(PriceNotPositive)
  }

  /** A payload that meets every constraint. */
  predicate IsValid(d: ProductCreate) {
    FieldPresent(d.name) && FieldPresent(d.description) && d.price.Some? && d.price.value > 0.0
  }

  /** Every violated field of the payload, mapped to its message. */
  function Validate(d: ProductCreate): (errors: map<string, string>)
    ensures errors.Keys <= {"name", "description", "price"}
    ensures "name" in errors <==> !FieldPresent(d.name)
    ensures "name" in errors ==> errors["name"] == NameRequired
    ensures "description" in errors <==> !FieldPresent(d.description)
    ensures "description" in errors ==> errors["description"] == DescriptionRequired
    ensures "price" in errors <==> d.price.None? || d.price.value <= 0.0
    ensures "price" in errors && d.price.None? ==> errors["price"] == PriceRequired
    ensures "price" in errors && d.price.Some? ==> errors["price"] == PriceNotPositive
  {
    var nameErrors := if FieldPresent(d.name) then map[] else map["name" := NameRequired];
    var descriptionErrors := if FieldPresent(d.description) then map[] else map["description" := DescriptionRequired];
    var priceErrors := match PriceError(d.price)
      case None => map[]
      case Some(m) => map["price" := m];
    nameErrors + descriptionErrors + priceErrors
  }

  /** No error is reported exactly when the payload is valid. */
  lemma ValidateEmptyIff(d: ProductCreate)
    ensures Validate(d) == map[] <==> IsValid(d)
  {
  }

  /** ("", "Gabinete Gamer com 6 fans", 0) is rejected on both name and price. */
  lemma InvalidNameAndZeroPrice()
    ensures Validate(ProductCreate(Some(""), Some("Gabinete Gamer com 6 fans"), Some(0.0)))
         == map["name" := NameRequired, "price" := PriceNotPositive]
  {
  }

  /** ("Monitor", "Monitor IPS de 27 Polegadas", 960) is accepted. */
  lemma ValidMonitor()
    ensures Validate(ProductCreate(Some("Monitor"), Some("Monitor IPS de 27 Polegadas"), Some(960.0))) == map[]
  {
  }
}
