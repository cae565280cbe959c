/**
 * `atribuirResponsavel`: deactivates the company's active responsible users and records a
 * new active one. `AtribuirResponsavelAsWritten` follows the source line by line;
 * `AtribuirResponsavel` checks every given assigner, which the rest of the model uses.
 */
module ResponsavelOps {
  import opened Wrappers
  import opened Entities
  import opened Repository

  datatype AtribuirResponsavelDto = AtribuirResponsavelDto(idUsuarioExterno: int, atribuidoPorUsuarioId: Option<int>)

  /** `respRepo.update({ idEmpresa, ativo: true }, { ativo: false })`. */
  function DesativarResponsaveis(rs: map<int, Responsavel>, idEmpresa: int): (r: map<int, Responsavel>)
    ensures r.Keys == rs.Keys
    ensures forall id | id in r :: r[id] == rs[id].(ativo := r[id].ativo)
    ensures forall id | id in r :: r[id].idEmpresa == idEmpresa ==> !r[id].ativo
    ensures forall id | id in r :: r[id].idEmpresa != idEmpresa ==> r[id] == rs[id]
  {
    map id | id in rs :: if rs[id].idEmpresa == idEmpresa && rs[id].ativo then rs[id].(ativo := false) else rs[id]
  }

  /** The row `respRepo.create` builds for the assignment. */
  function NovoResponsavel(id: int, idEmpresa: int, dto: AtribuirResponsavelDto, now: Timestamp): Responsavel {
    Responsavel(id, idEmpresa, dto.idUsuarioExterno, true, dto.atribuidoPorUsuarioId, now)
  }

  /** The state after the bulk deactivation and the insert of `novo` under its key. */
  function Inserido(s: Store, novo: Responsavel): Store {
    s.(responsaveis := DesativarResponsaveis(s.responsaveis, novo.idEmpresa)[novo.idEmpresaResponsavel := novo],
       nextResponsavelId := s.nextResponsavelId + 1)
  }

  /**
   * The source as written: the assigner is looked up only when its id is truthy, so an id of 0
   * skips the check; the deactivation then runs, and the insert is refused by the foreign key
   * on `atribuido_por_usuario_id` when no user 0 exists. The refused `save` is not caught: an
   * internal error, after the deactivation took effect.
   */
  function AtribuirResponsavelAsWritten(s: Store, idEmpresa: int, dto: AtribuirResponsavelDto, now: Timestamp): (st: Step<Responsavel>)
    ensures st.result.Success? <==>
      && idEmpresa in s.empresas && dto.idUsuarioExterno in s.usuarios
      && (dto.atribuidoPorUsuarioId.Some? ==> dto.atribuidoPorUsuarioId.value in s.usuarios)
    ensures st.result == Failure(ErroInterno) <==>
      && idEmpresa in s.empresas && dto.idUsuarioExterno in s.usuarios
      && dto.atribuidoPorUsuarioId == Some(0) && 0 !in s.usuarios
  {
    match BuscarPorId(s, idEmpresa)
    case Failure(err) => Step(s, Failure(err))
    case Success(_) =>
      if dto.idUsuarioExterno !in s.usuarios then Step(s, Failure(UsuarioExternoInvalido))
      else if dto.atribuidoPorUsuarioId.Some? && dto.atribuidoPorUsuarioId.value != 0
              && dto.atribuidoPorUsuarioId.value !in s.usuarios then Step(s, Failure(AtribuidorInvalido))
      else
        var desativado := s.(responsaveis := DesativarResponsaveis(s.responsaveis, idEmpresa));
        if dto.atribuidoPorUsuarioId.Some? && dto.atribuidoPorUsuarioId.value !in s.usuarios then
          Step(desativado, Failure(ErroInterno))
        else
          var novo := NovoResponsavel(s.nextResponsavelId, idEmpresa, dto, now);
          Step(Inserido(s, novo), Success(novo))
  }

  /**
   * `atribuirResponsavel` with the assigner checked whenever it is given: every refusal leaves
   * the state as it was; a success leaves the new row as the company's only active one and
   * every other company's rows untouched.
   */
  function AtribuirResponsavel(s: Store, idEmpresa: int, dto: AtribuirResponsavelDto, now: Timestamp): (st: Step<Responsavel>)
    ensures st.result.Failure? ==> st.store == s
    ensures st.result.Success? <==>
      && idEmpresa in s.empresas && dto.idUsuarioExterno in s.usuarios
      && (dto.atribuidoPorUsuarioId.Some? ==> dto.atribuidoPorUsuarioId.value in s.usuarios)
    ensures idEmpresa !in s.empresas ==> st.result == Failure(EmpresaNaoEncontrada)
    ensures idEmpresa in s.empresas && dto.idUsuarioExterno !in s.usuarios ==> st.result == Failure(UsuarioExternoInvalido)
    ensures idEmpresa in s.empresas && dto.idUsuarioExterno in s.usuarios
            && dto.atribuidoPorUsuarioId.Some? && dto.atribuidoPorUsuarioId.value !in s.usuarios ==>
      st.result == Failure(AtribuidorInvalido)
    ensures st.result.Success? ==>
      var novo := st.result.value;
      var rs := st.store.responsaveis;
      && novo.idEmpresaResponsavel == s.nextResponsavelId
      && novo.idEmpresa == idEmpresa && novo.idUsuarioExterno == dto.idUsuarioExterno
      && novo.atribuidoPorUsuarioId == dto.atribuidoPorUsuarioId && novo.atribuidoEm == now
      && rs.Keys == s.responsaveis.Keys + {novo.idEmpresaResponsavel}
      && novo.ativo && rs[novo.idEmpresaResponsavel] == novo
      && (forall id | id in s.responsaveis && id != novo.idEmpresaResponsavel ::
            rs[id] == s.responsaveis[id].(ativo := rs[id].ativo))
      && (forall id | id in rs && rs[id].idEmpresa == idEmpresa :: rs[id].ativo <==> id == novo.idEmpresaResponsavel)
      && (forall id | id in s.responsaveis && s.responsaveis[id].idEmpresa != idEmpresa && id != novo.idEmpresaResponsavel ::
            rs[id] == s.responsaveis[id])
      && st.store == s.(responsaveis := rs, nextResponsavelId := s.nextResponsavelId + 1)
  {
    match BuscarPorId(s, idEmpresa)
    case Failure(err) => Step(s, Failure(err))
    case Success(_) =>
      if dto.idUsuarioExterno !in s.usuarios then Step(s, Failure(UsuarioExternoInvalido))
      else if dto.atribuidoPorUsuarioId.Some? && dto.atribuidoPorUsuarioId.value !in s.usuarios then Step(s, Failure(AtribuidorInvalido))
      else
        var novo := NovoResponsavel(s.nextResponsavelId, idEmpresa, dto, now);
        Step(Inserido(s, novo), Success(novo))
  }

  /**
   * The two versions differ only on an assigner id of 0 that is not a user; on every other
   * input they give the same state and the same answer.
   */
  lemma AsWrittenAgreesExceptOnZero(s: Store, idEmpresa: int, dto: AtribuirResponsavelDto, now: Timestamp)
    requires dto.atribuidoPorUsuarioId != Some(0) || 0 in s.usuarios
    ensures AtribuirResponsavelAsWritten(s, idEmpresa, dto, now) == AtribuirResponsavel(s, idEmpresa, dto, now)
  {
  }

  /** Some active responsible user of company `idEmpresa`. */
  predicate HasActiveResponsavel(s: Store, idEmpresa: int) {
    exists id | id in s.responsaveis :: s.responsaveis[id].idEmpresa == idEmpresa && s.responsaveis[id].ativo
  }

  /**
   * The discrepancy: with an assigner id of 0 (never a user: keys start at 1) the source answers
   * an internal error and leaves the company with no active responsible user, while the
   * corrected version refuses the request and keeps the current one.
   */
  lemma AssignerZeroDropsActiveResponsavel(s: Store, idEmpresa: int, idUsuarioExterno: int, now: Timestamp)
    requires idEmpresa in s.empresas && idUsuarioExterno in s.usuarios && 0 !in s.usuarios
    requires HasActiveResponsavel(s, idEmpresa)
    ensures var dto := AtribuirResponsavelDto(idUsuarioExterno, Some(0));
      var asWritten := AtribuirResponsavelAsWritten(s, idEmpresa, dto, now);
      var corrected := AtribuirResponsavel(s, idEmpresa, dto, now);
      && asWritten.result == Failure(ErroInterno)
      && !HasActiveResponsavel(asWritten.store, idEmpresa)
      && corrected.result == Failure(AtribuidorInvalido)
      && HasActiveResponsavel(corrected.store, idEmpresa)
  {
    var dto := AtribuirResponsavelDto(idUsuarioExterno, Some(0));
    var rs := AtribuirResponsavelAsWritten(s, idEmpresa, dto, now).store.responsaveis;
    assert rs == DesativarResponsaveis(s.responsaveis, idEmpresa);
  }

  /** The same discrepancy on a concrete state: company 1 with user 1 active, reassigned to user 2 by "user 0". */
  lemma AssignerZeroExample()
    ensures var e := Empresa(1, Juridica, "Acme", 1, false, Some("Acme Ltda"), Some("12345678000190"),
                             None, None, None, None, 1, Pendente, None, None, None);
      var r := Responsavel(1, 1, 1, true, None, 0);
      var s := Store({1, 2}, {1}, map[1 := e], 2, map[1 := r], 2, map[], 1, map[]);
      var st := AtribuirResponsavelAsWritten(s, 1, AtribuirResponsavelDto(2, Some(0)), 5);
      && HasActiveResponsavel(s, 1)
      && st.result == Failure(ErroInterno)
      && st.store.responsaveis == map[1 := r.(ativo := false)]
  {
    var r := Responsavel(1, 1, 1, true, None, 0);
    assert 1 in map[1 := r];
  }

  // ---------------------------------------------------------------- invariant

  /** Changing only the responsible-user table keeps the state valid when the new table is well formed. */
  lemma ResponsaveisChangeKeepsValid(s: Store, s2: Store, sha256: Sha256)
    requires Valid(s, sha256)
    requires s2 == s.(responsaveis := s2.responsaveis, nextResponsavelId := s2.nextResponsavelId)
    requires ResponsaveisWellFormed(s2) && AtMostOneActive(s2)
    ensures Valid(s2, sha256)
  {
    assert forall id | id in s2.documentos :: DocumentoWellFormed(s, sha256, id);
  }

  lemma AtribuirResponsavelPreservesValid(s: Store, sha256: Sha256, idEmpresa: int, dto: AtribuirResponsavelDto, now: Timestamp)
    requires Valid(s, sha256)
    ensures Valid(AtribuirResponsavel(s, idEmpresa, dto, now).store, sha256)
  {
    var st := AtribuirResponsavel(s, idEmpresa, dto, now);
    if st.result.Success? {
      var s2 := st.store;
      var novo := st.result.value;
      var d := DesativarResponsaveis(s.responsaveis, idEmpresa);
      assert s2.responsaveis == d[novo.idEmpresaResponsavel := novo];
      forall i, j | i in s2.responsaveis && j in s2.responsaveis && i != j
        && s2.responsaveis[i].idEmpresa == s2.responsaveis[j].idEmpresa
        ensures !(s2.responsaveis[i].ativo && s2.responsaveis[j].ativo)
      {
        if i != novo.idEmpresaResponsavel && j != novo.idEmpresaResponsavel {
          assert s2.responsaveis[i] == d[i] && s2.responsaveis[j] == d[j];
        }
      }
      ResponsaveisChangeKeepsValid(s, s2, sha256);
    }
  }
}
