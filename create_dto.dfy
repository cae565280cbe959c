/**
 * `CreateEmpresaDto`: the class-validator constraints on the body of a company registration,
 * including the ones that apply only to one `tipo_pessoa` (`@ValidateIf`).
 */
module CreateEmpresaValidation {
  import opened Wrappers
  import opened JsText
  import opened Entities

  /** The body as it arrives, before validation. */
  datatype CreateEmpresaBody = CreateEmpresaBody(
    tipo_pessoa: JsValue,
    nome_fantasia: JsValue,
    id_empresa_perfil: JsValue,
    faturamento_direto: JsValue,
    razao_social: JsValue,
    cnpj: JsValue,
    nome_pessoa: JsValue,
    cpf: JsValue,
    razao_social_estrangeira: JsValue,
    identificador_estrangeiro: JsValue,
    criado_por_usuario_id: JsValue)

  /** The validated body, as the service reads it. */
  datatype CreateEmpresaDto = CreateEmpresaDto(
    tipoPessoa: TipoPessoa,
    nomeFantasia: string,
    idEmpresaPerfil: int,
    faturamentoDireto: Option<bool>,
    razaoSocial: Option<string>,
    cnpj: Option<string>,
    nomePessoa: Option<string>,
    cpf: Option<string>,
    razaoSocialEstrangeira: Option<string>,
    identificadorEstrangeiro: Option<string>,
    criadoPorUsuarioId: int)

  /** `@IsIn(['JURIDICA', 'FISICA', 'ESTRANGEIRA'])`. */
  function TipoOf(v: JsValue): (t: Option<TipoPessoa>)
    ensures t == Some(Juridica) <==> v == Str("JURIDICA")
    ensures t == Some(Fisica) <==> v == Str("FISICA")
    ensures t == Some(Estrangeira) <==> v == Str("ESTRANGEIRA")
  {
    if v == Str("JURIDICA") then Some(Juridica)
    else if v == Str("FISICA") then Some(Fisica)
    else if v == Str("ESTRANGEIRA") then Some(Estrangeira)
    else None
  }

  /**
   * The typed field `t` carries the body's value `v`: absent exactly when `v` is null or
   * undefined, and otherwise the text of `v` (the string itself for a string).
   */
  predicate CarriesText(v: JsValue, t: Option<string>) {
    && (t.None? <==> IsNullish(v))
    && (t.Some? ==> t.value == ToJsString(v))
  }

  /** `@IsOptional()` followed by other checks: nullish, or the checks hold. */
  predicate OptionalStringOfLength(v: JsValue, min: nat, max: nat) {
    IsNullish(v) || IsStringOfLength(v, min, max)
  }

  /** Every decorator of the class, each `@ValidateIf` switching its property's checks on for one type only. */
  predicate IsValid(b: CreateEmpresaBody) {
    && TipoOf(b.tipo_pessoa).Some?
    && IsStringOfLength(b.nome_fantasia, 2, 120)
    && b.id_empresa_perfil.Num?
    && (IsNullish(b.faturamento_direto) || b.faturamento_direto.Bool?)
    && OptionalStringOfLength(b.razao_social, 2, 180)
    && (b.tipo_pessoa == Str("JURIDICA") ==> IsStringOfLength(b.cnpj, 14, 14))
    && (b.tipo_pessoa == Str("FISICA") ==> IsStringOfLength(b.nome_pessoa, 2, 180))
    && (b.tipo_pessoa == Str("FISICA") ==> IsStringOfLength(b.cpf, 11, 11))
    && (b.tipo_pessoa == Str("ESTRANGEIRA") ==> OptionalStringOfLength(b.razao_social_estrangeira, 2, 180))
    && (b.tipo_pessoa == Str("ESTRANGEIRA") ==> IsStringOfLength(b.identificador_estrangeiro, 2, 60))
    && b.criado_por_usuario_id.Num?
  }

  /**
   * The validation pipe: None is the 400 answer for a body that breaks a constraint; otherwise
   * the typed body, with the guarantees each type's constraints give the service.
   */
  function Parse(b: CreateEmpresaBody): (r: Option<CreateEmpresaDto>)
    ensures r.Some? <==> IsValid(b)
    ensures r.Some? ==> 2 <= |r.value.nomeFantasia| <= 120
    ensures r.Some? && r.value.razaoSocial.Some? ==> 2 <= |r.value.razaoSocial.value| <= 180
    ensures r.Some? && r.value.tipoPessoa == Juridica ==>
      r.value.cnpj.Some? && |r.value.cnpj.value| == 14
    ensures r.Some? && r.value.tipoPessoa == Fisica ==>
      && r.value.nomePessoa.Some? && 2 <= |r.value.nomePessoa.value| <= 180
      && r.value.cpf.Some? && |r.value.cpf.value| == 11
    ensures r.Some? && r.value.tipoPessoa == Estrangeira ==>
      && r.value.identificadorEstrangeiro.Some? && 2 <= |r.value.identificadorEstrangeiro.value| <= 60
      && (r.value.razaoSocialEstrangeira.Some? ==> 2 <= |r.value.razaoSocialEstrangeira.value| <= 180)
    ensures r.Some? ==>
      var d := r.value;
      && TipoOf(b.tipo_pessoa) == Some(d.tipoPessoa)
      && b.nome_fantasia == Str(d.nomeFantasia)
      && b.id_empresa_perfil == Num(d.idEmpresaPerfil)
      && (d.faturamentoDireto.None? <==> IsNullish(b.faturamento_direto))
      && (d.faturamentoDireto.Some? ==> b.faturamento_direto == Bool(d.faturamentoDireto.value))
      && CarriesText(b.razao_social, d.razaoSocial)
      && CarriesText(b.cnpj, d.cnpj)
      && CarriesText(b.nome_pessoa, d.nomePessoa)
      && CarriesText(b.cpf, d.cpf)
      && CarriesText(b.razao_social_estrangeira, d.razaoSocialEstrangeira)
      && CarriesText(b.identificador_estrangeiro, d.identificadorEstrangeiro)
      && b.criado_por_usuario_id == Num(d.criadoPorUsuarioId)
  {
    if IsValid(b) then
      Some(CreateEmpresaDto(
        TipoOf(b.tipo_pessoa).value,
        b.nome_fantasia.s,
        b.id_empresa_perfil.n,
        if b.faturamento_direto.Bool? then Some(b.faturamento_direto.b) else None,
        AsColumnText(b.razao_social),
        AsColumnText(b.cnpj),
        AsColumnText(b.nome_pessoa),
        AsColumnText(b.cpf),
        AsColumnText(b.razao_social_estrangeira),
        AsColumnText(b.identificador_estrangeiro),
        b.criado_por_usuario_id.n))
    else
      None
  }

  /**
   * The type-specific constraints are switched off for the other types: for a body that is not
   * JURIDICA any `cnpj` value passes, of any length and of any type, and reaches the service as its text.
   */
  lemma CnpjOnlyCheckedForJuridica(b: CreateEmpresaBody, v: JsValue)
    requires IsValid(b) && b.tipo_pessoa != Str("JURIDICA")
    ensures IsValid(b.(cnpj := v))
    ensures Parse(b.(cnpj := v)).Some? && Parse(b.(cnpj := v)).value.cnpj == AsColumnText(v)
  {
  }

  /** A JURIDICA body with a CNPJ that is not 14 characters long is refused. */
  lemma JuridicaNeedsFourteenCharCnpj(b: CreateEmpresaBody)
    requires b.tipo_pessoa == Str("JURIDICA") && b.cnpj.Str? && |b.cnpj.s| != 14
    ensures Parse(b).None?
  {
  }
}
