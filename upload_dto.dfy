/**
 * `UploadDocumentoDto`: the coercion of the `obrigatorio` form field to a boolean and the
 * validation of both fields.
 */
module UploadDocumentoValidation {
  import opened Wrappers
  import opened JsText

  /** The validated fields, as the service reads them. */
  datatype UploadDocumentoDto = UploadDocumentoDto(obrigatorio: Option<bool>, descricao: Option<string>)

  predicate IsTruthyWord(v: string) {
    v == "true" || v == "1" || v == "on"
  }

  /** The `@Transform` callback of `obrigatorio`. */
  function CoerceObrigatorio(value: JsValue): (r: JsValue)
    ensures r.Undefined? || r.Bool?
    ensures r.Undefined? <==> value.Undefined? || value.Null? || value == Str("")
    ensures value.Bool? ==> r == value
  {
    if value.Undefined? || value.Null? || value == Str("") then Undefined
    else if value.Bool? then value
    else Bool(IsTruthyWord(ToLower(ToJsString(value))))
  }

  /** A character lower-cases to a digit only when it is that digit. */
  lemma LowerCharDigit(c: char)
    ensures LowerChar(c) == '1' <==> c == '1'
  {
  }

  /** A non-empty string is true exactly when it is "1" or, ignoring case, "true" or "on". */
  lemma CoerceString(s: string)
    requires s != ""
    ensures CoerceObrigatorio(Str(s)) == Bool(s == "1" || ToLower(s) == "true" || ToLower(s) == "on")
  {
    if ToLower(s) == "1" {
      LowerCharDigit(s[0]);
      assert s == [s[0]];
    }
  }

  /** A number is true exactly when it is 1. */
  lemma CoerceNumber(n: int)
    ensures CoerceObrigatorio(Num(n)) == Bool(n == 1)
  {
    var d := IntToDecimal(n);
    assert ToLower(d) == d;
    IntToDecimalIsOne(n);
    assert d != "true" by { assert "true"[0] == 't'; }
    assert d != "on" by { assert "on"[0] == 'o'; }
  }

  /** A plain object is written "[object Object]" and so is false. */
  lemma CoerceObject()
    ensures CoerceObrigatorio(Obj) == Bool(false)
  {
    var w := ToLower("[object Object]");
    assert w[0] == '[';
  }

  /** Coercing an already coerced value changes nothing. */
  lemma CoerceIdempotent(value: JsValue)
    ensures CoerceObrigatorio(CoerceObrigatorio(value)) == CoerceObrigatorio(value)
  {
  }

  /** `@IsOptional() @IsString() @Length(0, 120)` on `descricao`. */
  predicate DescricaoValid(v: JsValue) {
    IsNullish(v) || IsStringOfLength(v, 0, 120)
  }

  /**
   * The validation pipe: `obrigatorio` is coerced first and then always passes
   * `@IsOptional() @IsBoolean()`; the request is refused (None) only for a bad `descricao`.
   */
  function Parse(obrigatorio: JsValue, descricao: JsValue): (r: Option<UploadDocumentoDto>)
    ensures r.Some? <==> DescricaoValid(descricao)
    ensures r.Some? ==> r.value.descricao.None? || |r.value.descricao.value| <= 120
    ensures r.Some? ==> (r.value.obrigatorio.None? <==> IsNullish(obrigatorio) || obrigatorio == Str(""))
    ensures r.Some? ==>
      && (r.value.obrigatorio.Some? <==> CoerceObrigatorio(obrigatorio).Bool?)
      && (r.value.obrigatorio.Some? ==> Bool(r.value.obrigatorio.value) == CoerceObrigatorio(obrigatorio))
      && (r.value.descricao.None? <==> IsNullish(descricao))
      && (r.value.descricao.Some? ==> descricao == Str(r.value.descricao.value))
  {
    var o := CoerceObrigatorio(obrigatorio);
    if DescricaoValid(descricao) then
      Some(UploadDocumentoDto(if o.Bool? then Some(o.b) else None, AsColumnText(descricao)))
    else
      None
  }
}
