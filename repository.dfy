/**
 * The database and the storage directory the companies service works on, as one value:
 * each table is a map from primary key to row with the next key of its sequence, and the
 * storage root is a map from relative path to file content. The users and profiles tables
 * are only read here.
 */
module Repository {
  import opened Wrappers
  import opened Entities
  import opened DocumentStorage

  /** SHA-256 rendered as hexadecimal text; the model treats it as an arbitrary function. */
  type Sha256 = Bytes -> string

  datatype Store = Store(
    usuarios: set<int>,
    perfis: set<int>,
    empresas: map<int, Empresa>,
    nextEmpresaId: int,
    responsaveis: map<int, Responsavel>,
    nextResponsavelId: int,
    documentos: map<int, Documento>,
    nextDocumentoId: int,
    files: map<string, Bytes>)

  /** The state after a service call and what the call resolved to or threw. */
  datatype Step<T> = Step(store: Store, result: Result<T, Error>)

  /** Empty tables and storage over given users and profiles; `bigserial` keys start at 1. */
  function Empty(usuarios: set<int>, perfis: set<int>): Store {
    Store(usuarios, perfis, map[], 1, map[], 1, map[], 1, map[])
  }

  // ---------------------------------------------------------------- database constraints

  /** Two companies share a CNPJ, a CPF or a foreign identifier (NULLs never clash). */
  predicate SameIdentifier(a: Empresa, b: Empresa) {
    || (a.cnpj.Some? && a.cnpj == b.cnpj)
    || (a.cpf.Some? && a.cpf == b.cpf)
    || (a.identificadorEstrangeiro.Some? && a.identificadorEstrangeiro == b.identificadorEstrangeiro)
  }

  /** The foreign keys of a company row: its profile, its creator and its approver exist. */
  predicate EmpresaReferencesExist(s: Store, e: Empresa) {
    && e.idEmpresaPerfil in s.perfis
    && e.criadoPorUsuarioId in s.usuarios
    && (e.aprovadoPorUsuarioId.Some? ==> e.aprovadoPorUsuarioId.value in s.usuarios)
  }

  /** Whether the database accepts `e` as the row with key `e.idEmpresa`: foreign keys and unique identifiers. */
  predicate EmpresaRowAccepted(s: Store, e: Empresa) {
    && EmpresaReferencesExist(s, e)
    && forall id | id in s.empresas && id != e.idEmpresa :: !SameIdentifier(s.empresas[id], e)
  }

  // ---------------------------------------------------------------- invariant

  predicate EmpresasWellFormed(s: Store) {
    && s.nextEmpresaId >= 1
    && (forall id | id in s.empresas ::
          0 < id < s.nextEmpresaId && s.empresas[id].idEmpresa == id && EmpresaReferencesExist(s, s.empresas[id]))
    && (forall i, j | i in s.empresas && j in s.empresas && i != j :: !SameIdentifier(s.empresas[i], s.empresas[j]))
  }

  predicate ResponsaveisWellFormed(s: Store) {
    && s.nextResponsavelId >= 1
    && (forall id | id in s.responsaveis ::
          && 0 < id < s.nextResponsavelId
          && s.responsaveis[id].idEmpresaResponsavel == id
          && s.responsaveis[id].idEmpresa in s.empresas
          && s.responsaveis[id].idUsuarioExterno in s.usuarios
          && (s.responsaveis[id].atribuidoPorUsuarioId.Some? ==> s.responsaveis[id].atribuidoPorUsuarioId.value in s.usuarios))
  }

  /** A company has at most one active responsible user. */
  predicate AtMostOneActive(s: Store) {
    forall i, j | i in s.responsaveis && j in s.responsaveis && i != j ::
      s.responsaveis[i].idEmpresa == s.responsaveis[j].idEmpresa ==> !(s.responsaveis[i].ativo && s.responsaveis[j].ativo)
  }

  /** A document row agrees with the file it points to and with how uploads build it. */
  predicate DocumentoWellFormed(s: Store, sha256: Sha256, id: int)
    requires id in s.documentos
  {
    var d := s.documentos[id];
    && 0 < id < s.nextDocumentoId
    && d.idEmpresaDocumento == id
    && d.idEmpresa in s.empresas
    && d.storageDriver == Local
    && IsAllowedMime(d.mimeType)
    && |d.nomeArquivoOriginal| <= MaxOriginalNameLength
    && d.storagePath == StoragePath(d.idEmpresa, d.nomeArquivoArmazenado)
    && d.storagePath in s.files
    && d.tamanhoBytes == |s.files[d.storagePath]|
    && d.arquivoHashSha256 == sha256(s.files[d.storagePath])
  }

  /** The deduplication key: no two documents of one company have the same content hash. */
  predicate DedupKeyUnique(s: Store) {
    forall i, j | i in s.documentos && j in s.documentos && i != j ::
      s.documentos[i].idEmpresa == s.documentos[j].idEmpresa ==>
        s.documentos[i].arquivoHashSha256 != s.documentos[j].arquivoHashSha256
  }

  /** No two documents share a stored file. */
  predicate StoragePathsDistinct(s: Store) {
    forall i, j | i in s.documentos && j in s.documentos && i != j ::
      s.documentos[i].storagePath != s.documentos[j].storagePath
  }

  predicate DocumentosWellFormed(s: Store, sha256: Sha256) {
    && s.nextDocumentoId >= 1
    && (forall id | id in s.documentos :: DocumentoWellFormed(s, sha256, id))
    && DedupKeyUnique(s)
    && StoragePathsDistinct(s)
  }

  /** What every reachable state satisfies. */
  predicate Valid(s: Store, sha256: Sha256) {
    && EmpresasWellFormed(s)
    && ResponsaveisWellFormed(s)
    && AtMostOneActive(s)
    && DocumentosWellFormed(s, sha256)
  }

  /** What the document lookups rely on: keys below the counter, equal to the row's id, and the deduplication key unique. */
  predicate DocumentoIndex(s: Store) {
    && DedupKeyUnique(s)
    && forall id | id in s.documentos :: 0 < id < s.nextDocumentoId && s.documentos[id].idEmpresaDocumento == id
  }

  lemma ValidDocumentoIndex(s: Store, sha256: Sha256)
    requires Valid(s, sha256)
    ensures DocumentoIndex(s)
  {
    assert forall id | id in s.documentos :: DocumentoWellFormed(s, sha256, id);
  }

  lemma EmptyValid(usuarios: set<int>, perfis: set<int>, sha256: Sha256)
    ensures Valid(Empty(usuarios, perfis), sha256)
  {
  }

  // ---------------------------------------------------------------- ordered queries

  /** The keys of `keys` in (0, n], largest first: a query with `ORDER BY id DESC`. */
  function KeysDescending(keys: set<int>, n: int): (r: seq<int>)
    ensures forall i :: 0 <= i < |r| ==> r[i] in keys && 0 < r[i] <= n
    ensures forall i, j :: 0 <= i < j < |r| ==> r[i] > r[j]
    decreases n
  {
    if n <= 0 then [] else (if n in keys then [n] else []) + KeysDescending(keys, n - 1)
  }

  /** Every key in range is listed. */
  lemma {:induction false} KeysDescendingComplete(keys: set<int>, n: int, k: int)
    requires k in keys && 0 < k <= n
    ensures k in KeysDescending(keys, n)
    decreases n
  {
    if k < n {
      KeysDescendingComplete(keys, n - 1, k);
    }
  }

  /** `empresasRepo.findOne({ where: { idEmpresa } })` as used by `buscarPorId`. */
  function BuscarPorId(s: Store, id: int): (r: Result<Empresa, Error>)
    ensures r.Success? <==> id in s.empresas
    ensures r.Success? ==> r.value == s.empresas[id]
    ensures r.Failure? ==> r.error == EmpresaNaoEncontrada
  {
    if id in s.empresas then Success(s.empresas[id]) else Failure(EmpresaNaoEncontrada)
  }

  function StatusName(st: StatusAprovacao): string {
    match st
    case Pendente => "PENDENTE"
    case Aprovada => "APROVADA"
    case Reprovada => "REPROVADA"
  }

  /** `status ? { statusAprovacao: status } : {}`: an absent or empty status selects every company. */
  predicate StatusMatches(e: Empresa, status: Option<string>) {
    status.None? || status.value == "" || StatusName(e.statusAprovacao) == status.value
  }

  /** `listar`: the companies with the given status, newest first. */
  function Listar(s: Store, status: Option<string>): (r: seq<Empresa>)
    ensures forall i :: 0 <= i < |r| ==> r[i] in s.empresas.Values && StatusMatches(r[i], status)
  {
    var ids := EmpresaIds(s, status);
    seq(|ids|, i requires 0 <= i < |ids| => s.empresas[ids[i]])
  }

  /** The keys of the companies with the status, newest first: the order of `listar`. */
  function EmpresaIds(s: Store, status: Option<string>): seq<int> {
    KeysDescending((set id | id in s.empresas && StatusMatches(s.empresas[id], status)), s.nextEmpresaId - 1)
  }

  /** In a valid state `listar` returns every matching company, each once, by decreasing id. */
  lemma ListarSpec(s: Store, sha256: Sha256, status: Option<string>)
    requires Valid(s, sha256)
    ensures var r := Listar(s, status);
      && (forall i, j :: 0 <= i < j < |r| ==> r[i].idEmpresa > r[j].idEmpresa)
      && (forall id | id in s.empresas && StatusMatches(s.empresas[id], status) ::
            exists i :: 0 <= i < |r| && r[i] == s.empresas[id])
  {
    assert EmpresaKeysMatch(s);
    var ids := EmpresaIds(s, status);
    var r := Listar(s, status);
    forall i | 0 <= i < |r| ensures r[i] == s.empresas[ids[i]] && r[i].idEmpresa == ids[i] {
      ListedEmpresaAt(s, status, i);
    }
    forall id | id in s.empresas && StatusMatches(s.empresas[id], status)
      ensures exists i :: 0 <= i < |r| && r[i] == s.empresas[id]
    {
      var i := ListedEmpresaIndex(s, status, id);
      ListedEmpresaAt(s, status, i);
    }
  }

  /** Every company row sits under its own id. */
  predicate EmpresaKeysMatch(s: Store) {
    forall id | id in s.empresas :: s.empresas[id].idEmpresa == id
  }

  /** Position `i` of `listar` holds the company with the `i`-th key. */
  lemma ListedEmpresaAt(s: Store, status: Option<string>, i: int)
    requires EmpresaKeysMatch(s)
    requires 0 <= i < |EmpresaIds(s, status)|
    ensures var r := Listar(s, status); var ids := EmpresaIds(s, status);
      i < |r| && ids[i] in s.empresas && r[i] == s.empresas[ids[i]] && r[i].idEmpresa == ids[i]
  {
  }

  /** Every company with the status has a position among the keys. */
  lemma ListedEmpresaIndex(s: Store, status: Option<string>, id: int) returns (i: int)
    requires id in s.empresas && StatusMatches(s.empresas[id], status) && 0 < id < s.nextEmpresaId
    ensures 0 <= i < |EmpresaIds(s, status)| && EmpresaIds(s, status)[i] == id
  {
    var keys := set id | id in s.empresas && StatusMatches(s.empresas[id], status);
    KeysDescendingComplete(keys, s.nextEmpresaId - 1, id);
    i :| 0 <= i < |EmpresaIds(s, status)| && EmpresaIds(s, status)[i] == id;
  }
}
