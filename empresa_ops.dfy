/**
 * Company registration and approval (`criar`, `atualizar`, `aprovar`, `reprovar`) as
 * transitions of the repository state.
 */
module EmpresaOps {
  import opened Wrappers
  import opened JsText
  import opened Entities
  import opened Repository
  import opened CreateEmpresaValidation

  /** The fields of an update body: those of a registration, each of them optional. */
  datatype UpdateEmpresaDto = UpdateEmpresaDto(
    tipoPessoa: Option<TipoPessoa>,
    nomeFantasia: Option<string>,
    idEmpresaPerfil: Option<int>,
    faturamentoDireto: Option<bool>,
    razaoSocial: Option<string>,
    cnpj: Option<string>,
    nomePessoa: Option<string>,
    cpf: Option<string>,
    razaoSocialEstrangeira: Option<string>,
    identificadorEstrangeiro: Option<string>,
    criadoPorUsuarioId: Option<int>)

  // ---------------------------------------------------------------- per-type rules

  /** What each type of person must name, stated declaratively. */
  predicate TypeRulesHold(
    tipo: Option<TipoPessoa>, razaoSocial: Option<string>, cnpj: Option<string>, nomePessoa: Option<string>,
    cpf: Option<string>, razaoSocialEstrangeira: Option<string>, identificadorEstrangeiro: Option<string>)
  {
    && (tipo == Some(Juridica) ==> !IsBlank(razaoSocial) && !IsBlank(cnpj))
    && (tipo == Some(Fisica) ==> !IsBlank(nomePessoa) && !IsBlank(cpf))
    && (tipo == Some(Estrangeira) ==>
          !IsBlank(identificadorEstrangeiro) && (!IsBlank(razaoSocialEstrangeira) || !IsBlank(razaoSocial)))
  }

  /**
   * The checks at the head of `criar` and `atualizar`, in their order: the error thrown, if any.
   * A foreign company without identifier is reported before a missing corporate name.
   */
  function TypeRuleError(
    tipo: Option<TipoPessoa>, razaoSocial: Option<string>, cnpj: Option<string>, nomePessoa: Option<string>,
    cpf: Option<string>, razaoSocialEstrangeira: Option<string>, identificadorEstrangeiro: Option<string>): (r: Option<Error>)
    ensures r.None? <==> TypeRulesHold(tipo, razaoSocial, cnpj, nomePessoa, cpf, razaoSocialEstrangeira, identificadorEstrangeiro)
    ensures r == Some(JuridicaSemRazaoSocialOuCnpj) ==> tipo == Some(Juridica)
    ensures r == Some(FisicaSemNomeOuCpf) ==> tipo == Some(Fisica)
    ensures tipo == Some(Estrangeira) && IsBlank(identificadorEstrangeiro) ==> r == Some(EstrangeiraSemIdentificador)
    ensures r == Some(EstrangeiraSemRazaoSocial) ==> tipo == Some(Estrangeira) && !IsBlank(identificadorEstrangeiro)
    ensures r.Some? ==> r.value in {JuridicaSemRazaoSocialOuCnpj, FisicaSemNomeOuCpf, EstrangeiraSemIdentificador, EstrangeiraSemRazaoSocial}
  {
    if tipo == Some(Juridica) && (IsBlank(razaoSocial) || IsBlank(cnpj)) then Some(JuridicaSemRazaoSocialOuCnpj)
    else if tipo == Some(Fisica) && (IsBlank(nomePessoa) || IsBlank(cpf)) then Some(FisicaSemNomeOuCpf)
    else if tipo == Some(Estrangeira) && IsBlank(identificadorEstrangeiro) then Some(EstrangeiraSemIdentificador)
    else if tipo == Some(Estrangeira) && IsBlank(razaoSocialEstrangeira) && IsBlank(razaoSocial) then Some(EstrangeiraSemRazaoSocial)
    else None
  }

  /** A stored company names what its type requires. */
  predicate EmpresaTypeRulesHold(e: Empresa) {
    TypeRulesHold(Some(e.tipoPessoa), e.razaoSocial, e.cnpj, e.nomePessoa, e.cpf, e.razaoSocialEstrangeira, e.identificadorEstrangeiro)
  }

  // ---------------------------------------------------------------- criar

  /** The row `criar` builds: pending, never approved, billing directly only when asked to. */
  function NovaEmpresa(id: int, dto: CreateEmpresaDto): Empresa {
    Empresa(
      id, dto.tipoPessoa, dto.nomeFantasia, dto.idEmpresaPerfil, dto.faturamentoDireto.GetOr(false),
      dto.razaoSocial, dto.cnpj, dto.nomePessoa, dto.cpf, dto.razaoSocialEstrangeira, dto.identificadorEstrangeiro,
      dto.criadoPorUsuarioId, Pendente, None, None, None)
  }

  function Criar(s: Store, dto: CreateEmpresaDto): (st: Step<Empresa>)
    ensures st.result.Failure? ==> st.store == s
    ensures st.result.Success? <==>
      && TypeRulesHold(Some(dto.tipoPessoa), dto.razaoSocial, dto.cnpj, dto.nomePessoa, dto.cpf, dto.razaoSocialEstrangeira, dto.identificadorEstrangeiro)
      && dto.criadoPorUsuarioId in s.usuarios
      && EmpresaRowAccepted(s, NovaEmpresa(s.nextEmpresaId, dto))
    ensures var ruleError := TypeRuleError(Some(dto.tipoPessoa), dto.razaoSocial, dto.cnpj, dto.nomePessoa, dto.cpf,
                                           dto.razaoSocialEstrangeira, dto.identificadorEstrangeiro);
      ruleError.Some? ==> st.result == Failure(ruleError.value) && HttpStatus(ruleError.value) == 400
    ensures st.result == Failure(CriadorInvalido) <==>
      && TypeRulesHold(Some(dto.tipoPessoa), dto.razaoSocial, dto.cnpj, dto.nomePessoa, dto.cpf, dto.razaoSocialEstrangeira, dto.identificadorEstrangeiro)
      && dto.criadoPorUsuarioId !in s.usuarios
    ensures st.result == Failure(Conflito) <==>
      && TypeRulesHold(Some(dto.tipoPessoa), dto.razaoSocial, dto.cnpj, dto.nomePessoa, dto.cpf, dto.razaoSocialEstrangeira, dto.identificadorEstrangeiro)
      && dto.criadoPorUsuarioId in s.usuarios
      && !EmpresaRowAccepted(s, NovaEmpresa(s.nextEmpresaId, dto))
    ensures st.result.Success? ==>
      var e := st.result.value;
      && e == NovaEmpresa(s.nextEmpresaId, dto)
      && e.tipoPessoa == dto.tipoPessoa && e.nomeFantasia == dto.nomeFantasia && e.idEmpresaPerfil == dto.idEmpresaPerfil
      && e.razaoSocial == dto.razaoSocial && e.cnpj == dto.cnpj && e.nomePessoa == dto.nomePessoa && e.cpf == dto.cpf
      && e.razaoSocialEstrangeira == dto.razaoSocialEstrangeira && e.identificadorEstrangeiro == dto.identificadorEstrangeiro
      && e.criadoPorUsuarioId == dto.criadoPorUsuarioId
      && e.idEmpresa == s.nextEmpresaId
      && e.statusAprovacao == Pendente
      && e.motivoReprovacao.None? && e.aprovadoPorUsuarioId.None? && e.aprovadoEm.None?
      && e.faturamentoDireto == (dto.faturamentoDireto == Some(true))
      && EmpresaTypeRulesHold(e)
      && st.store == s.(empresas := s.empresas[e.idEmpresa := e], nextEmpresaId := s.nextEmpresaId + 1)
  {
    var ruleError := TypeRuleError(Some(dto.tipoPessoa), dto.razaoSocial, dto.cnpj, dto.nomePessoa, dto.cpf,
                                   dto.razaoSocialEstrangeira, dto.identificadorEstrangeiro);
    if ruleError.Some? then Step(s, Failure(ruleError.value))
    else if dto.criadoPorUsuarioId !in s.usuarios then Step(s, Failure(CriadorInvalido))
    else
      var e := NovaEmpresa(s.nextEmpresaId, dto);
      if !EmpresaRowAccepted(s, e) then Step(s, Failure(Conflito))
      else Step(s.(empresas := s.empresas[e.idEmpresa := e], nextEmpresaId := s.nextEmpresaId + 1), Success(e))
  }

  // ---------------------------------------------------------------- atualizar

  /** `Object.assign(empresa, { field: dto.field ?? empresa.field, ... })`. */
  function Mesclar(e: Empresa, dto: UpdateEmpresaDto): Empresa {
    e.(
      tipoPessoa := dto.tipoPessoa.GetOr(e.tipoPessoa),
      nomeFantasia := dto.nomeFantasia.GetOr(e.nomeFantasia),
      idEmpresaPerfil := dto.idEmpresaPerfil.GetOr(e.idEmpresaPerfil),
      faturamentoDireto := dto.faturamentoDireto.GetOr(e.faturamentoDireto),
      razaoSocial := dto.razaoSocial.OrElse(e.razaoSocial),
      cnpj := dto.cnpj.OrElse(e.cnpj),
      nomePessoa := dto.nomePessoa.OrElse(e.nomePessoa),
      cpf := dto.cpf.OrElse(e.cpf),
      razaoSocialEstrangeira := dto.razaoSocialEstrangeira.OrElse(e.razaoSocialEstrangeira),
      identificadorEstrangeiro := dto.identificadorEstrangeiro.OrElse(e.identificadorEstrangeiro),
      criadoPorUsuarioId := dto.criadoPorUsuarioId.GetOr(e.criadoPorUsuarioId))
  }

  function Atualizar(s: Store, id: int, dto: UpdateEmpresaDto): (st: Step<Empresa>)
    ensures st.result.Failure? ==> st.store == s
    ensures st.result.Success? <==>
      && id in s.empresas
      && TypeRulesHold(dto.tipoPessoa, dto.razaoSocial, dto.cnpj, dto.nomePessoa, dto.cpf,
                       dto.razaoSocialEstrangeira, dto.identificadorEstrangeiro)
      && EmpresaRowAccepted(s, Mesclar(s.empresas[id], dto))
    ensures st.result == Failure(Conflito) <==>
      && id in s.empresas
      && TypeRulesHold(dto.tipoPessoa, dto.razaoSocial, dto.cnpj, dto.nomePessoa, dto.cpf,
                       dto.razaoSocialEstrangeira, dto.identificadorEstrangeiro)
      && !EmpresaRowAccepted(s, Mesclar(s.empresas[id], dto))
    ensures id !in s.empresas ==> st.result == Failure(EmpresaNaoEncontrada)
    ensures id in s.empresas && !TypeRulesHold(dto.tipoPessoa, dto.razaoSocial, dto.cnpj, dto.nomePessoa, dto.cpf,
                                               dto.razaoSocialEstrangeira, dto.identificadorEstrangeiro) ==>
      st.result.Failure? && st.result.error != Conflito && st.result.error != EmpresaNaoEncontrada
    ensures st.result.Success? ==>
      var e := st.result.value;
      && id in s.empresas
      && e == Mesclar(s.empresas[id], dto)
      && e.idEmpresa == s.empresas[id].idEmpresa
      && e.statusAprovacao == s.empresas[id].statusAprovacao
      && e.motivoReprovacao == s.empresas[id].motivoReprovacao
      && e.aprovadoPorUsuarioId == s.empresas[id].aprovadoPorUsuarioId
      && e.aprovadoEm == s.empresas[id].aprovadoEm
      && st.store == s.(empresas := s.empresas[id := e])
  {
    match BuscarPorId(s, id)
    case Failure(err) => Step(s, Failure(err))
    case Success(atual) =>
      var ruleError := TypeRuleError(dto.tipoPessoa, dto.razaoSocial, dto.cnpj, dto.nomePessoa, dto.cpf,
                                     dto.razaoSocialEstrangeira, dto.identificadorEstrangeiro);
      if ruleError.Some? then Step(s, Failure(ruleError.value))
      else
        var e := Mesclar(atual, dto);
        if !EmpresaRowAccepted(s, e) then Step(s, Failure(Conflito))
        else Step(s.(empresas := s.empresas[id := e]), Success(e))
  }

  /** When the update names the type, the updated company names what that type requires. */
  lemma AtualizarWithTipoKeepsTypeRules(s: Store, id: int, dto: UpdateEmpresaDto)
    requires dto.tipoPessoa.Some?
    requires Atualizar(s, id, dto).result.Success?
    ensures EmpresaTypeRulesHold(Atualizar(s, id, dto).result.value)
  {
  }

  /**
   * The rules are checked on the update body only: without `tipo_pessoa` an update may blank
   * the CNPJ of a corporate company and is still saved.
   */
  lemma AtualizarWithoutTipoSkipsTypeRules(s: Store, sha256: Sha256, id: int)
    requires Valid(s, sha256) && id in s.empresas && s.empresas[id].tipoPessoa == Juridica
    requires forall j | j in s.empresas :: s.empresas[j].cnpj != Some(" ")
    ensures var dto := UpdateEmpresaDto(None, None, None, None, None, Some(" "), None, None, None, None, None);
      && Atualizar(s, id, dto).result.Success?
      && !EmpresaTypeRulesHold(Atualizar(s, id, dto).result.value)
  {
    var dto := UpdateEmpresaDto(None, None, None, None, None, Some(" "), None, None, None, None, None);
    var e := Mesclar(s.empresas[id], dto);
    assert Trim(" ") == "";
    forall j | j in s.empresas && j != e.idEmpresa ensures !SameIdentifier(s.empresas[j], e) {
      assert !SameIdentifier(s.empresas[j], s.empresas[id]);
    }
  }

  // ---------------------------------------------------------------- aprovar / reprovar

  /** `aprovar`: from any status, records the approval and clears a previous rejection reason. */
  function Aprovar(s: Store, id: int, aprovadoPorUsuarioId: int, now: Timestamp): (st: Step<Empresa>)
    ensures st.result.Success? <==> id in s.empresas && aprovadoPorUsuarioId in s.usuarios
    ensures id !in s.empresas ==> st.result == Failure(EmpresaNaoEncontrada)
    ensures id in s.empresas && aprovadoPorUsuarioId !in s.usuarios ==> st.result == Failure(AprovadorInvalido)
    ensures st.result.Failure? ==> st.store == s
    ensures st.result.Success? ==>
      var e := st.result.value;
      && e == s.empresas[id].(statusAprovacao := Aprovada, motivoReprovacao := None,
                              aprovadoPorUsuarioId := Some(aprovadoPorUsuarioId), aprovadoEm := Some(now))
      && st.store == s.(empresas := s.empresas[id := e])
  {
    match BuscarPorId(s, id)
    case Failure(err) => Step(s, Failure(err))
    case Success(atual) =>
      if aprovadoPorUsuarioId !in s.usuarios then Step(s, Failure(AprovadorInvalido))
      else
        var e := atual.(statusAprovacao := Aprovada, motivoReprovacao := None,
                        aprovadoPorUsuarioId := Some(aprovadoPorUsuarioId), aprovadoEm := Some(now));
        Step(s.(empresas := s.empresas[id := e]), Success(e))
  }

  /** `reprovar`: from any status, records the rejection, its reason and who decided. */
  function Reprovar(s: Store, id: int, aprovadoPorUsuarioId: int, motivo: string, now: Timestamp): (st: Step<Empresa>)
    ensures st.result.Success? <==> id in s.empresas && aprovadoPorUsuarioId in s.usuarios
    ensures id !in s.empresas ==> st.result == Failure(EmpresaNaoEncontrada)
    ensures id in s.empresas && aprovadoPorUsuarioId !in s.usuarios ==> st.result == Failure(AprovadorInvalido)
    ensures st.result.Failure? ==> st.store == s
    ensures st.result.Success? ==>
      var e := st.result.value;
      && e == s.empresas[id].(statusAprovacao := Reprovada, motivoReprovacao := Some(motivo),
                              aprovadoPorUsuarioId := Some(aprovadoPorUsuarioId), aprovadoEm := Some(now))
      && st.store == s.(empresas := s.empresas[id := e])
  {
    match BuscarPorId(s, id)
    case Failure(err) => Step(s, Failure(err))
    case Success(atual) =>
      if aprovadoPorUsuarioId !in s.usuarios then Step(s, Failure(AprovadorInvalido))
      else
        var e := atual.(statusAprovacao := Reprovada, motivoReprovacao := Some(motivo),
                        aprovadoPorUsuarioId := Some(aprovadoPorUsuarioId), aprovadoEm := Some(now));
        Step(s.(empresas := s.empresas[id := e]), Success(e))
  }

  /** A rejected company can still be approved, and approving it forgets the rejection reason. */
  lemma ReprovarThenAprovar(s: Store, id: int, u: int, motivo: string, t1: Timestamp, t2: Timestamp)
    requires id in s.empresas && u in s.usuarios
    ensures var s1 := Reprovar(s, id, u, motivo, t1).store;
      var st := Aprovar(s1, id, u, t2);
      && st.result.Success?
      && st.store.empresas[id].statusAprovacao == Aprovada
      && st.store.empresas[id].motivoReprovacao.None?
      && st.store.empresas[id].aprovadoEm == Some(t2)
  {
  }

  // ---------------------------------------------------------------- invariant

  /** Changing only the companies table keeps the state valid when the new table is well formed and keeps every key. */
  lemma EmpresasChangeKeepsValid(s: Store, s2: Store, sha256: Sha256)
    requires Valid(s, sha256)
    requires s2 == s.(empresas := s2.empresas, nextEmpresaId := s2.nextEmpresaId)
    requires s.empresas.Keys <= s2.empresas.Keys
    requires EmpresasWellFormed(s2)
    ensures Valid(s2, sha256)
  {
    assert forall id | id in s2.documentos :: DocumentoWellFormed(s, sha256, id);
  }

  lemma CriarPreservesValid(s: Store, sha256: Sha256, dto: CreateEmpresaDto)
    requires Valid(s, sha256)
    ensures Valid(Criar(s, dto).store, sha256)
  {
    var st := Criar(s, dto);
    if st.result.Success? {
      var e := st.result.value;
      var s2 := st.store;
      forall i, j | i in s2.empresas && j in s2.empresas && i != j
        ensures !SameIdentifier(s2.empresas[i], s2.empresas[j])
      {
        if i == e.idEmpresa {
          assert !SameIdentifier(s.empresas[j], e);
        } else if j == e.idEmpresa {
          assert !SameIdentifier(s.empresas[i], e);
        }
      }
      EmpresasChangeKeepsValid(s, s2, sha256);
    }
  }

  /** `SameIdentifier` is symmetric. */
  lemma SameIdentifierSymmetric(a: Empresa, b: Empresa)
    ensures SameIdentifier(a, b) <==> SameIdentifier(b, a)
  {
  }

  lemma AtualizarPreservesValid(s: Store, sha256: Sha256, id: int, dto: UpdateEmpresaDto)
    requires Valid(s, sha256)
    ensures Valid(Atualizar(s, id, dto).store, sha256)
  {
    var st := Atualizar(s, id, dto);
    if st.result.Success? {
      var e := st.result.value;
      var s2 := st.store;
      forall i, j | i in s2.empresas && j in s2.empresas && i != j
        ensures !SameIdentifier(s2.empresas[i], s2.empresas[j])
      {
        if i == id {
          SameIdentifierSymmetric(s.empresas[j], e);
        } else if j == id {
          assert !SameIdentifier(s.empresas[i], e);
        }
      }
      EmpresasChangeKeepsValid(s, s2, sha256);
    }
  }

  /** Approval and rejection change neither the identifiers nor the keys of the table. */
  lemma DecisionKeepsValid(s: Store, sha256: Sha256, id: int, e: Empresa)
    requires Valid(s, sha256) && id in s.empresas
    requires e == s.empresas[id].(statusAprovacao := e.statusAprovacao, motivoReprovacao := e.motivoReprovacao,
                                  aprovadoPorUsuarioId := e.aprovadoPorUsuarioId, aprovadoEm := e.aprovadoEm)
    requires e.aprovadoPorUsuarioId.Some? ==> e.aprovadoPorUsuarioId.value in s.usuarios
    ensures Valid(s.(empresas := s.empresas[id := e]), sha256)
  {
    var s2 := s.(empresas := s.empresas[id := e]);
    forall i, j | i in s2.empresas && j in s2.empresas && i != j
      ensures !SameIdentifier(s2.empresas[i], s2.empresas[j])
    {
      assert !SameIdentifier(s.empresas[i], s.empresas[j]);
    }
    EmpresasChangeKeepsValid(s, s2, sha256);
  }

  lemma AprovarPreservesValid(s: Store, sha256: Sha256, id: int, u: int, now: Timestamp)
    requires Valid(s, sha256)
    ensures Valid(Aprovar(s, id, u, now).store, sha256)
  {
    var st := Aprovar(s, id, u, now);
    if st.result.Success? {
      DecisionKeepsValid(s, sha256, id, st.result.value);
    }
  }

  lemma ReprovarPreservesValid(s: Store, sha256: Sha256, id: int, u: int, motivo: string, now: Timestamp)
    requires Valid(s, sha256)
    ensures Valid(Reprovar(s, id, u, motivo, now).store, sha256)
  {
    var st := Reprovar(s, id, u, motivo, now);
    if st.result.Success? {
      DecisionKeepsValid(s, sha256, id, st.result.value);
    }
  }
}
