/**
 * `EmpresasService`: the service object whose methods read and change the tables and the
 * storage directory. Each method follows the source's steps and is proved to leave the state
 * and give the answer of the transition of the same name, and to keep the state valid.
 */
module Service {
  import opened Wrappers
  import opened Entities
  import opened DocumentStorage
  import opened Repository
  import opened CreateEmpresaValidation
  import opened UploadDocumentoValidation
  import opened EmpresaOps
  import opened ResponsavelOps
  import opened DocumentoOps

  class EmpresasService {
    var usuarios: set<int>
    var perfis: set<int>
    var empresas: map<int, Empresa>
    var nextEmpresaId: int
    var responsaveis: map<int, Responsavel>
    var nextResponsavelId: int
    var documentos: map<int, Documento>
    var nextDocumentoId: int
    var files: map<string, Bytes>
    const sha256: Sha256

    /** The tables and the storage directory as one value. */
    function State(): Store
      reads this
    {
      Store(usuarios, perfis, empresas, nextEmpresaId, responsaveis, nextResponsavelId, documentos, nextDocumentoId, files)
    }

    predicate Valid()
      reads this
    {
      Repository.Valid(State(), sha256)
    }

    /** Empty company tables and storage over the given users and profiles. */
    constructor(usuarios: set<int>, perfis: set<int>, sha256: Sha256)
      ensures State() == Empty(usuarios, perfis) && this.sha256 == sha256
      ensures Valid()
    {
      this.usuarios := usuarios;
      this.perfis := perfis;
      empresas := map[];
      nextEmpresaId := 1;
      responsaveis := map[];
      nextResponsavelId := 1;
      documentos := map[];
      nextDocumentoId := 1;
      files := map[];
      this.sha256 := sha256;
      new;
      EmptyValid(usuarios, perfis, sha256);
    }

    method Criar(dto: CreateEmpresaDto) returns (r: Result<Empresa, Error>)
      requires Valid()
      modifies this
      ensures var st := EmpresaOps.Criar(old(State()), dto); State() == st.store && r == st.result
      ensures Valid()
    {
      CriarPreservesValid(State(), sha256, dto);
      var ruleError := TypeRuleError(Some(dto.tipoPessoa), dto.razaoSocial, dto.cnpj, dto.nomePessoa, dto.cpf,
                                     dto.razaoSocialEstrangeira, dto.identificadorEstrangeiro);
      if ruleError.Some? {
        return Failure(ruleError.value);
      }
      if dto.criadoPorUsuarioId !in usuarios {
        return Failure(CriadorInvalido);
      }
      var entity := NovaEmpresa(nextEmpresaId, dto);
      if !EmpresaRowAccepted(State(), entity) {
        return Failure(Conflito);
      }
      empresas := empresas[entity.idEmpresa := entity];
      nextEmpresaId := nextEmpresaId + 1;
      return Success(entity);
    }

    /** `listar`: every company with the status, each once, newest first. */
    method Listar(status: Option<string>) returns (r: seq<Empresa>)
      requires Valid()
      ensures r == Repository.Listar(State(), status)
      ensures forall i, j :: 0 <= i < j < |r| ==> r[i].idEmpresa > r[j].idEmpresa
      ensures forall id | id in empresas :: (exists i :: 0 <= i < |r| && r[i] == empresas[id]) <==> StatusMatches(empresas[id], status)
    {
      r := Repository.Listar(State(), status);
      ListarSpec(State(), sha256, status);
    }

    method BuscarPorId(id: int) returns (r: Result<Empresa, Error>)
      ensures r == Repository.BuscarPorId(State(), id)
      ensures Valid() && r.Success? ==> r.value.idEmpresa == id
    {
      if id !in empresas {
        return Failure(EmpresaNaoEncontrada);
      }
      return Success(empresas[id]);
    }

    method Atualizar(id: int, dto: UpdateEmpresaDto) returns (r: Result<Empresa, Error>)
      requires Valid()
      modifies this
      ensures var st := EmpresaOps.Atualizar(old(State()), id, dto); State() == st.store && r == st.result
      ensures Valid()
    {
      AtualizarPreservesValid(State(), sha256, id, dto);
      var found := BuscarPorId(id);
      if found.Failure? {
        return found;
      }
      var ruleError := TypeRuleError(dto.tipoPessoa, dto.razaoSocial, dto.cnpj, dto.nomePessoa, dto.cpf,
                                     dto.razaoSocialEstrangeira, dto.identificadorEstrangeiro);
      if ruleError.Some? {
        return Failure(ruleError.value);
      }
      var empresa := Mesclar(found.value, dto);
      if !EmpresaRowAccepted(State(), empresa) {
        return Failure(Conflito);
      }
      empresas := empresas[id := empresa];
      return Success(empresa);
    }

    method Aprovar(id: int, aprovadoPorUsuarioId: int, now: Timestamp) returns (r: Result<Empresa, Error>)
      requires Valid()
      modifies this
      ensures var st := EmpresaOps.Aprovar(old(State()), id, aprovadoPorUsuarioId, now); State() == st.store && r == st.result
      ensures Valid()
    {
      AprovarPreservesValid(State(), sha256, id, aprovadoPorUsuarioId, now);
      var found := BuscarPorId(id);
      if found.Failure? {
        return found;
      }
      if aprovadoPorUsuarioId !in usuarios {
        return Failure(AprovadorInvalido);
      }
      var empresa := found.value.(statusAprovacao := Aprovada, motivoReprovacao := None,
                                  aprovadoPorUsuarioId := Some(aprovadoPorUsuarioId), aprovadoEm := Some(now));
      empresas := empresas[id := empresa];
      return Success(empresa);
    }

    method Reprovar(id: int, aprovadoPorUsuarioId: int, motivo: string, now: Timestamp) returns (r: Result<Empresa, Error>)
      requires Valid()
      modifies this
      ensures var st := EmpresaOps.Reprovar(old(State()), id, aprovadoPorUsuarioId, motivo, now); State() == st.store && r == st.result
      ensures Valid()
    {
      ReprovarPreservesValid(State(), sha256, id, aprovadoPorUsuarioId, motivo, now);
      var found := BuscarPorId(id);
      if found.Failure? {
        return found;
      }
      if aprovadoPorUsuarioId !in usuarios {
        return Failure(AprovadorInvalido);
      }
      var empresa := found.value.(statusAprovacao := Reprovada, motivoReprovacao := Some(motivo),
                                  aprovadoPorUsuarioId := Some(aprovadoPorUsuarioId), aprovadoEm := Some(now));
      empresas := empresas[id := empresa];
      return Success(empresa);
    }

    /** `atribuirResponsavel`, with every given assigner checked before anything changes. */
    method AtribuirResponsavel(idEmpresa: int, dto: AtribuirResponsavelDto, now: Timestamp) returns (r: Result<Responsavel, Error>)
      requires Valid()
      modifies this
      ensures var st := ResponsavelOps.AtribuirResponsavel(old(State()), idEmpresa, dto, now); State() == st.store && r == st.result
      ensures Valid()
    {
      AtribuirResponsavelPreservesValid(State(), sha256, idEmpresa, dto, now);
      var found := BuscarPorId(idEmpresa);
      if found.Failure? {
        return Failure(found.error);
      }
      if dto.idUsuarioExterno !in usuarios {
        return Failure(UsuarioExternoInvalido);
      }
      if dto.atribuidoPorUsuarioId.Some? && dto.atribuidoPorUsuarioId.value !in usuarios {
        return Failure(AtribuidorInvalido);
      }
      var novo := NovoResponsavel(nextResponsavelId, idEmpresa, dto, now);
      responsaveis := DesativarResponsaveis(responsaveis, idEmpresa);
      responsaveis := responsaveis[novo.idEmpresaResponsavel := novo];
      nextResponsavelId := nextResponsavelId + 1;
      return Success(novo);
    }

    /** `listarDocumentos`: every document of the company, removed ones included, newest first. */
    method ListarDocumentos(idEmpresa: int) returns (r: Result<seq<Documento>, Error>)
      requires Valid()
      ensures r == DocumentoOps.ListarDocumentos(State(), idEmpresa)
      ensures r.Success? ==> forall i, j :: 0 <= i < j < |r.value| ==> r.value[i].idEmpresaDocumento > r.value[j].idEmpresaDocumento
      ensures r.Success? ==> forall id | id in documentos && documentos[id].idEmpresa == idEmpresa ::
        exists i :: 0 <= i < |r.value| && r.value[i] == documentos[id]
    {
      r := DocumentoOps.ListarDocumentos(State(), idEmpresa);
      if r.Success? {
        ValidDocumentoIndex(State(), sha256);
        ListarDocumentosSpec(State(), idEmpresa);
      }
    }

    method RemoverDocumento(idEmpresa: int, docId: int) returns (r: Result<Documento, Error>)
      requires Valid()
      modifies this
      ensures var st := DocumentoOps.RemoverDocumento(old(State()), idEmpresa, docId); State() == st.store && r == st.result
      ensures Valid()
    {
      RemoverPreservesValid(State(), sha256, idEmpresa, docId);
      var found := BuscarPorId(idEmpresa);
      if found.Failure? {
        return Failure(found.error);
      }
      if !(docId in documentos && documentos[docId].idEmpresa == idEmpresa) {
        return Failure(DocumentoNaoEncontrado);
      }
      var doc := documentos[docId].(status := Removido);
      documentos := documentos[docId := doc];
      return Success(doc);
    }

    /**
     * `uploadDocumento`. The random token stands for `crypto.randomUUID()`: the caller supplies
     * one whose path is not taken yet.
     */
    method UploadDocumento(idEmpresa: int, dto: UploadDocumentoDto, file: Option<UploadedFile>, maxMb: nat, token: string)
      returns (r: Result<Documento, Error>)
      requires Valid()
      requires file.Some? ==> StoragePath(idEmpresa, StoredName(token, file.value.mimetype)) !in files
      modifies this
      ensures var st := Upload(old(State()), sha256, idEmpresa, dto, file, maxMb, token); State() == st.store && r == st.result
      ensures Valid()
    {
      UploadPreservesValid(State(), sha256, idEmpresa, dto, file, maxMb, token);
      var found := BuscarPorId(idEmpresa);
      if found.Failure? {
        return Failure(found.error);
      }
      if file.None? {
        return Failure(ArquivoObrigatorio);
      }
      var f := file.value;
      if !IsAllowedMime(f.mimetype) {
        return Failure(TipoArquivoInvalido);
      }
      if |f.buffer| > MaxBytes(maxMb) {
        return Failure(ArquivoExcedeLimite);
      }
      var hash := sha256(f.buffer);
      var existente := FindByKey(State(), idEmpresa, hash);
      if existente.Some? {
        return Success(existente.value);
      }
      var doc := NovoDocumento(State(), sha256, idEmpresa, dto, f, token);
      files := files[doc.storagePath := f.buffer];
      documentos := documentos[doc.idEmpresaDocumento := doc];
      nextDocumentoId := nextDocumentoId + 1;
      return Success(doc);
    }

    /** `baixarDocumento`: the document of the company and its content, whatever its status. */
    method BaixarDocumento(idEmpresa: int, docId: int) returns (r: Result<Download, Error>)
      requires Valid()
      ensures r == DocumentoOps.BaixarDocumento(State(), idEmpresa, docId)
      ensures r.Success? ==> r.value.content.Some? && sha256(r.value.content.value) == r.value.doc.arquivoHashSha256
    {
      r := DocumentoOps.BaixarDocumento(State(), idEmpresa, docId);
      if r.Success? {
        BaixarHasContent(State(), sha256, idEmpresa, docId);
      }
    }
  }
}
