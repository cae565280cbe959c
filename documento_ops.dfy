/**
 * The document store of a company: upload with deduplication on (company, content hash),
 * listing, soft removal and download.
 */
module DocumentoOps {
  import opened Wrappers
  import opened JsText
  import opened Entities
  import opened DocumentStorage
  import opened Repository
  import opened UploadDocumentoValidation

  /** The multipart file as the upload interceptor hands it over, held in memory: its size is its length. */
  datatype UploadedFile = UploadedFile(originalname: string, mimetype: string, buffer: Bytes)

  /** `maxMb * 1024 * 1024`. */
  function MaxBytes(maxMb: nat): nat {
    maxMb * 1024 * 1024
  }

  /** A document belongs to company `idEmpresa` and its content has hash `hash`. */
  predicate HasKey(d: Documento, idEmpresa: int, hash: string) {
    d.idEmpresa == idEmpresa && d.arquivoHashSha256 == hash
  }

  /** No id before position `i` of `ids` names a document with the deduplication key. */
  predicate NoKeyBefore(s: Store, ids: seq<int>, i: int, idEmpresa: int, hash: string)
    requires 0 <= i <= |ids|
  {
    forall j | 0 <= j < i :: !(ids[j] in s.documentos && HasKey(s.documentos[ids[j]], idEmpresa, hash))
  }

  /** The first of `ids` whose document has the deduplication key, if any. */
  function FirstWithKey(s: Store, ids: seq<int>, idEmpresa: int, hash: string): (r: Option<int>)
    ensures r.Some? ==> r.value in ids && r.value in s.documentos && HasKey(s.documentos[r.value], idEmpresa, hash)
    ensures r.None? ==> forall i | 0 <= i < |ids| && ids[i] in s.documentos :: !HasKey(s.documentos[ids[i]], idEmpresa, hash)
  {
    if ids == [] then None
    else if ids[0] in s.documentos && HasKey(s.documentos[ids[0]], idEmpresa, hash) then Some(ids[0])
    else FirstWithKey(s, ids[1..], idEmpresa, hash)
  }

  /** The id found is at a position of `ids` before which no id has the key: it is the first. */
  lemma {:induction false} FirstWithKeyIndex(s: Store, ids: seq<int>, idEmpresa: int, hash: string) returns (i: int)
    requires FirstWithKey(s, ids, idEmpresa, hash).Some?
    ensures 0 <= i < |ids| && ids[i] == FirstWithKey(s, ids, idEmpresa, hash).value
    ensures NoKeyBefore(s, ids, i, idEmpresa, hash)
  {
    if ids[0] in s.documentos && HasKey(s.documentos[ids[0]], idEmpresa, hash) {
      i := 0;
    } else {
      var k := FirstWithKeyIndex(s, ids[1..], idEmpresa, hash);
      i := k + 1;
      assert NoKeyBefore(s, ids, i, idEmpresa, hash) by {
        forall j | 0 <= j < i ensures !(ids[j] in s.documentos && HasKey(s.documentos[ids[j]], idEmpresa, hash)) {
          if j > 0 { assert ids[j] == ids[1..][j - 1]; }
        }
      }
    }
  }

  /** `docsRepo.findOne({ where: { idEmpresa, arquivoHashSha256: hash } })`, whatever the document's status. */
  function FindByKey(s: Store, idEmpresa: int, hash: string): (r: Option<Documento>)
    ensures r.Some? ==> r.value in s.documentos.Values && HasKey(r.value, idEmpresa, hash)
  {
    match FirstWithKey(s, KeysDescending(s.documentos.Keys, s.nextDocumentoId - 1), idEmpresa, hash)
    case Some(id) => Some(s.documentos[id])
    case None => None
  }

  /** In a valid state the lookup finds the document with the key exactly when there is one; there is at most one. */
  lemma FindByKeySpec(s: Store, idEmpresa: int, hash: string)
    requires DocumentoIndex(s)
    ensures FindByKey(s, idEmpresa, hash).None? <==>
      forall id | id in s.documentos :: !HasKey(s.documentos[id], idEmpresa, hash)
    ensures forall id | id in s.documentos && HasKey(s.documentos[id], idEmpresa, hash) ::
      FindByKey(s, idEmpresa, hash) == Some(s.documentos[id])
  {
    forall id | id in s.documentos && HasKey(s.documentos[id], idEmpresa, hash)
      ensures FindByKey(s, idEmpresa, hash) == Some(s.documentos[id])
    {
      FindByKeyFinds(s, idEmpresa, hash, id);
    }
  }

  /** The lookup finds a document that has the key. */
  lemma FindByKeyFinds(s: Store, idEmpresa: int, hash: string, id: int)
    requires DocumentoIndex(s)
    requires id in s.documentos && HasKey(s.documentos[id], idEmpresa, hash)
    ensures FindByKey(s, idEmpresa, hash) == Some(s.documentos[id])
  {
    var ids := KeysDescending(s.documentos.Keys, s.nextDocumentoId - 1);
    KeysDescendingComplete(s.documentos.Keys, s.nextDocumentoId - 1, id);
    var i :| 0 <= i < |ids| && ids[i] == id;
    var found := FirstWithKey(s, ids, idEmpresa, hash);
    assert found.Some? by {
      assert ids[i] in s.documentos && HasKey(s.documentos[ids[i]], idEmpresa, hash);
    }
    SameKeySameId(s, found.value, id, idEmpresa, hash);
  }

  /** Under the unique deduplication key, two documents with the same key are the same document. */
  lemma SameKeySameId(s: Store, a: int, b: int, idEmpresa: int, hash: string)
    requires DedupKeyUnique(s)
    requires a in s.documentos && HasKey(s.documentos[a], idEmpresa, hash)
    requires b in s.documentos && HasKey(s.documentos[b], idEmpresa, hash)
    ensures a == b
  {
  }

  /** The row an upload inserts for a file not seen before. */
  function NovoDocumento(s: Store, sha256: Sha256, idEmpresa: int, dto: UploadDocumentoDto, f: UploadedFile, token: string): Documento {
    var name := StoredName(token, f.mimetype);
    Documento(
      s.nextDocumentoId, idEmpresa, dto.obrigatorio.GetOr(true), dto.descricao, NormalizeOriginalName(f.originalname),
      name, f.mimetype, |f.buffer|, sha256(f.buffer), Local, StoragePath(idEmpresa, name), Ativo)
  }

  /**
   * `uploadDocumento`: the checks in the source's order, then the deduplicated document or a new
   * one whose file is written under the company's directory with the name `token` plus the
   * extension of its type.
   */
  function Upload(s: Store, sha256: Sha256, idEmpresa: int, dto: UploadDocumentoDto, file: Option<UploadedFile>,
                  maxMb: nat, token: string): (st: Step<Documento>)
    ensures st.result.Failure? ==> st.store == s
    ensures idEmpresa !in s.empresas ==> st.result == Failure(EmpresaNaoEncontrada)
    ensures idEmpresa in s.empresas && file.None? ==> st.result == Failure(ArquivoObrigatorio)
    ensures idEmpresa in s.empresas && file.Some? && !IsAllowedMime(file.value.mimetype) ==>
      st.result == Failure(TipoArquivoInvalido)
    ensures idEmpresa in s.empresas && file.Some? && IsAllowedMime(file.value.mimetype)
            && |file.value.buffer| > MaxBytes(maxMb) ==>
      st.result == Failure(ArquivoExcedeLimite)
    ensures st.result.Success? <==>
      idEmpresa in s.empresas && file.Some? && IsAllowedMime(file.value.mimetype) && |file.value.buffer| <= MaxBytes(maxMb)
    ensures st.result.Success? ==>
      && HasKey(st.result.value, idEmpresa, sha256(file.value.buffer))
      && st.result.value in st.store.documentos.Values
  {
    match BuscarPorId(s, idEmpresa)
    case Failure(err) => Step(s, Failure(err))
    case Success(_) =>
      if file.None? then Step(s, Failure(ArquivoObrigatorio))
      else if !IsAllowedMime(file.value.mimetype) then Step(s, Failure(TipoArquivoInvalido))
      else if |file.value.buffer| > MaxBytes(maxMb) then Step(s, Failure(ArquivoExcedeLimite))
      else
        match FindByKey(s, idEmpresa, sha256(file.value.buffer))
        case Some(existente) => Step(s, Success(existente))
        case None =>
          var doc := NovoDocumento(s, sha256, idEmpresa, dto, file.value, token);
          var s2 := s.(files := s.files[doc.storagePath := file.value.buffer],
                       documentos := s.documentos[doc.idEmpresaDocumento := doc],
                       nextDocumentoId := s.nextDocumentoId + 1);
          assert doc == s2.documentos[doc.idEmpresaDocumento];
          Step(s2, Success(doc))
  }

  /** The checks before the deduplication pass for this upload. */
  predicate Accepted(s: Store, idEmpresa: int, file: Option<UploadedFile>, maxMb: nat) {
    idEmpresa in s.empresas && file.Some? && IsAllowedMime(file.value.mimetype) && |file.value.buffer| <= MaxBytes(maxMb)
  }

  /** A file whose hash the company already has (in any status) gives back that document and changes nothing. */
  lemma UploadDeduplicates(s: Store, sha256: Sha256, idEmpresa: int, dto: UploadDocumentoDto, f: UploadedFile,
                           maxMb: nat, token: string, id: int)
    requires Valid(s, sha256) && Accepted(s, idEmpresa, Some(f), maxMb)
    requires id in s.documentos && HasKey(s.documentos[id], idEmpresa, sha256(f.buffer))
    ensures Upload(s, sha256, idEmpresa, dto, Some(f), maxMb, token) == Step(s, Success(s.documentos[id]))
  {
    ValidDocumentoIndex(s, sha256);
    FindByKeySpec(s, idEmpresa, sha256(f.buffer));
  }

  /**
   * A file the company does not have yet inserts exactly one active, local document under the
   * next key, with the defaults of the source, and writes the bytes to its path.
   */
  lemma UploadInsertsNew(s: Store, sha256: Sha256, idEmpresa: int, dto: UploadDocumentoDto, f: UploadedFile,
                         maxMb: nat, token: string)
    requires Valid(s, sha256) && Accepted(s, idEmpresa, Some(f), maxMb)
    requires forall id | id in s.documentos :: !HasKey(s.documentos[id], idEmpresa, sha256(f.buffer))
    ensures var st := Upload(s, sha256, idEmpresa, dto, Some(f), maxMb, token);
      var d := st.result.value;
      && st.result.Success?
      && d.idEmpresaDocumento == s.nextDocumentoId && d.idEmpresa == idEmpresa
      && d.status == Ativo && d.storageDriver == Local
      && d.obrigatorio == (dto.obrigatorio != Some(false)) && d.descricao == dto.descricao
      && d.nomeArquivoOriginal == NormalizeOriginalName(f.originalname)
      && d.mimeType == f.mimetype && d.tamanhoBytes == |f.buffer| && d.arquivoHashSha256 == sha256(f.buffer)
      && d.nomeArquivoArmazenado == token + MimeToExt(f.mimetype)
      && MimeToExt(f.mimetype) in {".pdf", ".png", ".jpg"}
      && d.storagePath == "empresas/" + IntToDecimal(idEmpresa) + "/documentos/" + d.nomeArquivoArmazenado
      && st.store == s.(files := s.files[d.storagePath := f.buffer],
                        documentos := s.documentos[d.idEmpresaDocumento := d],
                        nextDocumentoId := s.nextDocumentoId + 1)
  {
    ValidDocumentoIndex(s, sha256);
    FindByKeySpec(s, idEmpresa, sha256(f.buffer));
  }

  /** Uploading the same file twice gives the same document and the second upload changes nothing. */
  lemma UploadIdempotent(s: Store, sha256: Sha256, idEmpresa: int, dto1: UploadDocumentoDto, dto2: UploadDocumentoDto,
                         f: UploadedFile, maxMb: nat, token1: string, token2: string)
    requires Valid(s, sha256) && Accepted(s, idEmpresa, Some(f), maxMb)
    requires StoragePath(idEmpresa, StoredName(token1, f.mimetype)) !in s.files
    ensures var st1 := Upload(s, sha256, idEmpresa, dto1, Some(f), maxMb, token1);
      var st2 := Upload(st1.store, sha256, idEmpresa, dto2, Some(f), maxMb, token2);
      st2 == Step(st1.store, st1.result)
  {
    var st1 := Upload(s, sha256, idEmpresa, dto1, Some(f), maxMb, token1);
    UploadPreservesValid(s, sha256, idEmpresa, dto1, Some(f), maxMb, token1);
    var id := st1.result.value.idEmpresaDocumento;
    if forall j | j in s.documentos :: !HasKey(s.documentos[j], idEmpresa, sha256(f.buffer)) {
      UploadInsertsNew(s, sha256, idEmpresa, dto1, f, maxMb, token1);
    } else {
      ValidDocumentoIndex(s, sha256);
      FindByKeySpec(s, idEmpresa, sha256(f.buffer));
    }
    assert id in st1.store.documentos && st1.store.documentos[id] == st1.result.value;
    UploadDeduplicates(st1.store, sha256, idEmpresa, dto2, f, maxMb, token2, id);
  }

  /** Deduplication is per company: another company's copy of the file does not stop an insert. */
  lemma UploadDedupIsPerCompany(s: Store, sha256: Sha256, a: int, b: int, dto: UploadDocumentoDto, f: UploadedFile,
                                maxMb: nat, token: string)
    requires Valid(s, sha256) && Accepted(s, b, Some(f), maxMb) && a != b
    requires forall id | id in s.documentos && s.documentos[id].idEmpresa != a :: s.documentos[id].arquivoHashSha256 != sha256(f.buffer)
    ensures var st := Upload(s, sha256, b, dto, Some(f), maxMb, token);
      st.result.Success? && st.result.value.idEmpresaDocumento == s.nextDocumentoId && st.result.value.idEmpresa == b
  {
    UploadInsertsNew(s, sha256, b, dto, f, maxMb, token);
  }

  /** An upload keeps the state valid, provided the random token names a file that does not exist yet. */
  lemma UploadPreservesValid(s: Store, sha256: Sha256, idEmpresa: int, dto: UploadDocumentoDto, file: Option<UploadedFile>,
                             maxMb: nat, token: string)
    requires Valid(s, sha256)
    requires file.Some? ==> StoragePath(idEmpresa, StoredName(token, file.value.mimetype)) !in s.files
    ensures Valid(Upload(s, sha256, idEmpresa, dto, file, maxMb, token).store, sha256)
  {
    var st := Upload(s, sha256, idEmpresa, dto, file, maxMb, token);
    if st.result.Success? && st.store != s {
      var f := file.value;
      var hash := sha256(f.buffer);
      assert FindByKey(s, idEmpresa, hash).None?;
      ValidDocumentoIndex(s, sha256);
      FindByKeySpec(s, idEmpresa, hash);
      var d := NovoDocumento(s, sha256, idEmpresa, dto, f, token);
      var s2 := st.store;
      assert s2 == s.(files := s.files[d.storagePath := f.buffer], documentos := s.documentos[d.idEmpresaDocumento := d],
                      nextDocumentoId := s.nextDocumentoId + 1);
      NewDocumentoKeepsValid(s, sha256, d, f.buffer);
    }
  }

  /** Inserting a well-formed document with a fresh key, a fresh path and a fresh deduplication key keeps the state valid. */
  lemma NewDocumentoKeepsValid(s: Store, sha256: Sha256, d: Documento, content: Bytes)
    requires Valid(s, sha256)
    requires d.idEmpresaDocumento == s.nextDocumentoId && d.idEmpresa in s.empresas
    requires d.storageDriver == Local && IsAllowedMime(d.mimeType) && |d.nomeArquivoOriginal| <= MaxOriginalNameLength
    requires d.storagePath == StoragePath(d.idEmpresa, d.nomeArquivoArmazenado) && d.storagePath !in s.files
    requires d.tamanhoBytes == |content| && d.arquivoHashSha256 == sha256(content)
    requires forall id | id in s.documentos :: !HasKey(s.documentos[id], d.idEmpresa, d.arquivoHashSha256)
    ensures Valid(s.(files := s.files[d.storagePath := content], documentos := s.documentos[d.idEmpresaDocumento := d],
                     nextDocumentoId := s.nextDocumentoId + 1), sha256)
  {
    var s2 := s.(files := s.files[d.storagePath := content], documentos := s.documentos[d.idEmpresaDocumento := d],
                 nextDocumentoId := s.nextDocumentoId + 1);
    forall id | id in s2.documentos ensures DocumentoWellFormed(s2, sha256, id) {
      if id != d.idEmpresaDocumento {
        assert DocumentoWellFormed(s, sha256, id);
        assert s.documentos[id].storagePath in s.files;
      }
    }
    NormalizeOriginalNameSpec("");
  }

  // ---------------------------------------------------------------- listing, removal, download

  /** `listarDocumentos`: the company's documents, newest first, removed ones included. */
  function ListarDocumentos(s: Store, idEmpresa: int): (r: Result<seq<Documento>, Error>)
    ensures r.Failure? <==> idEmpresa !in s.empresas
    ensures r.Failure? ==> r.error == EmpresaNaoEncontrada
    ensures r.Success? ==> forall i | 0 <= i < |r.value| :: r.value[i] in s.documentos.Values && r.value[i].idEmpresa == idEmpresa
  {
    match BuscarPorId(s, idEmpresa)
    case Failure(err) => Failure(err)
    case Success(_) =>
      var ids := DocumentoIds(s, idEmpresa);
      Success(seq(|ids|, i requires 0 <= i < |ids| => s.documentos[ids[i]]))
  }

  /** The keys of company `idEmpresa`'s documents, newest first: the order of the listing. */
  function DocumentoIds(s: Store, idEmpresa: int): seq<int> {
    KeysDescending((set id | id in s.documentos && s.documentos[id].idEmpresa == idEmpresa), s.nextDocumentoId - 1)
  }

  /** In a valid state the listing holds every document of the company, each once, by decreasing id. */
  lemma ListarDocumentosSpec(s: Store, idEmpresa: int)
    requires DocumentoIndex(s) && idEmpresa in s.empresas
    ensures var r := ListarDocumentos(s, idEmpresa).value;
      && (forall i, j | 0 <= i < j < |r| :: r[i].idEmpresaDocumento > r[j].idEmpresaDocumento)
      && (forall id | id in s.documentos && s.documentos[id].idEmpresa == idEmpresa ::
            exists i :: 0 <= i < |r| && r[i] == s.documentos[id])
  {
    var ids := DocumentoIds(s, idEmpresa);
    var r := ListarDocumentos(s, idEmpresa).value;
    assert |r| == |ids|;
    forall i | 0 <= i < |r| ensures r[i] == s.documentos[ids[i]] && r[i].idEmpresaDocumento == ids[i] {
      ListedAt(s, idEmpresa, i);
    }
    forall id | id in s.documentos && s.documentos[id].idEmpresa == idEmpresa
      ensures exists i :: 0 <= i < |r| && r[i] == s.documentos[id]
    {
      var i := ListedIndex(s, idEmpresa, id);
      ListedAt(s, idEmpresa, i);
    }
  }

  /** Position `i` of the listing holds the document with the `i`-th key. */
  lemma ListedAt(s: Store, idEmpresa: int, i: int)
    requires DocumentoIndex(s) && idEmpresa in s.empresas
    requires 0 <= i < |DocumentoIds(s, idEmpresa)|
    ensures var r := ListarDocumentos(s, idEmpresa).value; var ids := DocumentoIds(s, idEmpresa);
      i < |r| && ids[i] in s.documentos && r[i] == s.documentos[ids[i]] && r[i].idEmpresaDocumento == ids[i]
  {
  }

  /** Every document of the company has a position among the keys. */
  lemma ListedIndex(s: Store, idEmpresa: int, id: int) returns (i: int)
    requires DocumentoIndex(s)
    requires id in s.documentos && s.documentos[id].idEmpresa == idEmpresa
    ensures 0 <= i < |DocumentoIds(s, idEmpresa)| && DocumentoIds(s, idEmpresa)[i] == id
  {
    var keys := set id | id in s.documentos && s.documentos[id].idEmpresa == idEmpresa;
    KeysDescendingComplete(keys, s.nextDocumentoId - 1, id);
    i :| 0 <= i < |DocumentoIds(s, idEmpresa)| && DocumentoIds(s, idEmpresa)[i] == id;
  }

  /** `docsRepo.findOne({ where: { idEmpresaDocumento: docId, idEmpresa } })`. */
  function FindDocumento(s: Store, idEmpresa: int, docId: int): (r: Result<Documento, Error>)
    ensures r.Success? <==> docId in s.documentos && s.documentos[docId].idEmpresa == idEmpresa
    ensures r.Success? ==> r.value == s.documentos[docId]
    ensures r.Failure? ==> r.error == DocumentoNaoEncontrado
  {
    if docId in s.documentos && s.documentos[docId].idEmpresa == idEmpresa then Success(s.documentos[docId])
    else Failure(DocumentoNaoEncontrado)
  }

  /** `removerDocumento`: a soft removal that only marks the document REMOVIDO. */
  function RemoverDocumento(s: Store, idEmpresa: int, docId: int): (st: Step<Documento>)
    ensures st.result.Failure? ==> st.store == s
    ensures st.result.Success? <==> idEmpresa in s.empresas && docId in s.documentos && s.documentos[docId].idEmpresa == idEmpresa
    ensures idEmpresa !in s.empresas ==> st.result == Failure(EmpresaNaoEncontrada)
    ensures idEmpresa in s.empresas && !(docId in s.documentos && s.documentos[docId].idEmpresa == idEmpresa) ==>
      st.result == Failure(DocumentoNaoEncontrado)
    ensures st.result.Success? ==>
      && idEmpresa in s.empresas && docId in s.documentos
      && st.result.value == s.documentos[docId].(status := Removido)
      && st.result.value.idEmpresa == idEmpresa
      && st.store == s.(documentos := s.documentos[docId := st.result.value])
  {
    match BuscarPorId(s, idEmpresa)
    case Failure(err) => Step(s, Failure(err))
    case Success(_) =>
      match FindDocumento(s, idEmpresa, docId)
      case Failure(err) => Step(s, Failure(err))
      case Success(doc) =>
        var removido := doc.(status := Removido);
        Step(s.(documentos := s.documentos[docId := removido]), Success(removido))
  }

  /** Removing twice is removing once. */
  lemma RemoverIdempotent(s: Store, idEmpresa: int, docId: int)
    ensures var st1 := RemoverDocumento(s, idEmpresa, docId);
      RemoverDocumento(st1.store, idEmpresa, docId) == st1
  {
    var st1 := RemoverDocumento(s, idEmpresa, docId);
    if st1.result.Success? {
      assert st1.store.documentos[docId := st1.result.value] == st1.store.documentos;
    }
  }

  lemma RemoverPreservesValid(s: Store, sha256: Sha256, idEmpresa: int, docId: int)
    requires Valid(s, sha256)
    ensures Valid(RemoverDocumento(s, idEmpresa, docId).store, sha256)
  {
    var st := RemoverDocumento(s, idEmpresa, docId);
    if st.result.Success? {
      var s2 := st.store;
      forall id | id in s2.documentos ensures DocumentoWellFormed(s2, sha256, id) {
        assert DocumentoWellFormed(s, sha256, id);
      }
    }
  }

  datatype Download = Download(doc: Documento, content: Option<Bytes>)

  /**
   * `baixarDocumento`: the document of that company and the content of its stored file,
   * whatever the document's status. A stream over a missing file is the None content.
   */
  function BaixarDocumento(s: Store, idEmpresa: int, docId: int): (r: Result<Download, Error>)
    ensures r.Success? <==> idEmpresa in s.empresas && docId in s.documentos && s.documentos[docId].idEmpresa == idEmpresa
    ensures idEmpresa !in s.empresas ==> r == Failure(EmpresaNaoEncontrada)
    ensures idEmpresa in s.empresas && !(docId in s.documentos && s.documentos[docId].idEmpresa == idEmpresa) ==>
      r == Failure(DocumentoNaoEncontrado)
    ensures r.Success? ==>
      && docId in s.documentos && r.value.doc == s.documentos[docId] && r.value.doc.idEmpresa == idEmpresa
      && (r.value.content.Some? <==> r.value.doc.storagePath in s.files)
      && (r.value.content.Some? ==> r.value.content.value == s.files[r.value.doc.storagePath])
  {
    match BuscarPorId(s, idEmpresa)
    case Failure(err) => Failure(err)
    case Success(_) =>
      match FindDocumento(s, idEmpresa, docId)
      case Failure(err) => Failure(err)
      case Success(doc) =>
        Success(Download(doc, if doc.storagePath in s.files then Some(s.files[doc.storagePath]) else None))
  }

  /** In a valid state every download of an existing document has its content, of the recorded size and hash. */
  lemma BaixarHasContent(s: Store, sha256: Sha256, idEmpresa: int, docId: int)
    requires Valid(s, sha256)
    requires BaixarDocumento(s, idEmpresa, docId).Success?
    ensures var dl := BaixarDocumento(s, idEmpresa, docId).value;
      && dl.content.Some?
      && |dl.content.value| == dl.doc.tamanhoBytes
      && sha256(dl.content.value) == dl.doc.arquivoHashSha256
  {
    assert DocumentoWellFormed(s, sha256, docId);
  }

  /** A new upload can be downloaded at once: the same bytes, type and original name. */
  lemma UploadThenBaixar(s: Store, sha256: Sha256, idEmpresa: int, dto: UploadDocumentoDto, f: UploadedFile,
                         maxMb: nat, token: string)
    requires Valid(s, sha256) && Accepted(s, idEmpresa, Some(f), maxMb)
    requires forall id | id in s.documentos :: !HasKey(s.documentos[id], idEmpresa, sha256(f.buffer))
    ensures var st := Upload(s, sha256, idEmpresa, dto, Some(f), maxMb, token);
      var dl := BaixarDocumento(st.store, idEmpresa, st.result.value.idEmpresaDocumento);
      && dl.Success?
      && dl.value.content == Some(f.buffer)
      && dl.value.doc.mimeType == f.mimetype
      && dl.value.doc.nomeArquivoOriginal == NormalizeOriginalName(f.originalname)
  {
    UploadInsertsNew(s, sha256, idEmpresa, dto, f, maxMb, token);
  }

  /** Any accepted upload, deduplicated or not, downloads a content with the same hash as the uploaded file. */
  lemma UploadThenBaixarSameHash(s: Store, sha256: Sha256, idEmpresa: int, dto: UploadDocumentoDto, f: UploadedFile,
                              maxMb: nat, token: string)
    requires Valid(s, sha256) && Accepted(s, idEmpresa, Some(f), maxMb)
    requires StoragePath(idEmpresa, StoredName(token, f.mimetype)) !in s.files
    ensures var st := Upload(s, sha256, idEmpresa, dto, Some(f), maxMb, token);
      var dl := BaixarDocumento(st.store, idEmpresa, st.result.value.idEmpresaDocumento);
      && dl.Success? && dl.value.content.Some? && sha256(dl.value.content.value) == sha256(f.buffer)
  {
    var st := Upload(s, sha256, idEmpresa, dto, Some(f), maxMb, token);
    UploadPreservesValid(s, sha256, idEmpresa, dto, Some(f), maxMb, token);
    var id := st.result.value.idEmpresaDocumento;
    if forall j | j in s.documentos :: !HasKey(s.documentos[j], idEmpresa, sha256(f.buffer)) {
      UploadInsertsNew(s, sha256, idEmpresa, dto, f, maxMb, token);
    } else {
      ValidDocumentoIndex(s, sha256);
      FindByKeySpec(s, idEmpresa, sha256(f.buffer));
    }
    BaixarHasContent(st.store, sha256, idEmpresa, id);
  }

  /** A removed document can still be downloaded, with its status REMOVIDO and its file kept. */
  lemma RemoverThenBaixar(s: Store, idEmpresa: int, docId: int)
    requires RemoverDocumento(s, idEmpresa, docId).result.Success?
    ensures var s2 := RemoverDocumento(s, idEmpresa, docId).store;
      var before := BaixarDocumento(s, idEmpresa, docId);
      var after := BaixarDocumento(s2, idEmpresa, docId);
      && before.Success? && after.Success?
      && after.value.doc == before.value.doc.(status := Removido)
      && after.value.content == before.value.content
  {
  }

  /** A document of another company is neither removed nor downloaded through this one. */
  lemma OtherCompanyDocumentNotFound(s: Store, sha256: Sha256, a: int, b: int, docId: int)
    requires Valid(s, sha256) && a in s.empresas && docId in s.documentos && s.documentos[docId].idEmpresa == b && a != b
    ensures RemoverDocumento(s, a, docId) == Step(s, Failure(DocumentoNaoEncontrado))
    ensures BaixarDocumento(s, a, docId) == Failure(DocumentoNaoEncontrado)
  {
  }
}
