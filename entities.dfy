/**
 * The rows of the tables the companies service reads and writes (`empresas`,
 * `empresa_documentos`, `empresa_responsaveis`) and the exceptions it throws.
 * Timestamps are whole numbers supplied by the caller; `created_at`/`updated_at`
 * columns filled by the database are not part of the model.
 */
module Entities {
  import opened Wrappers

  type Timestamp = int

  /** A byte of an uploaded file. */
  newtype Byte = x: int | 0 <= x < 256

  type Bytes = seq<Byte>

  datatype TipoPessoa = Juridica | Fisica | Estrangeira

  datatype StatusAprovacao = Pendente | Aprovada | Reprovada

  datatype DocumentoStatus = Ativo | Removido

  datatype StorageDriver = Local | S3 | Minio

  /** A row of `empresas`. */
  datatype Empresa = Empresa(
    idEmpresa: int,
    tipoPessoa: TipoPessoa,
    nomeFantasia: string,
    idEmpresaPerfil: int,
    faturamentoDireto: bool,
    razaoSocial: Option<string>,
    cnpj: Option<string>,
    nomePessoa: Option<string>,
    cpf: Option<string>,
    razaoSocialEstrangeira: Option<string>,
    identificadorEstrangeiro: Option<string>,
    criadoPorUsuarioId: int,
    statusAprovacao: StatusAprovacao,
    motivoReprovacao: Option<string>,
    aprovadoPorUsuarioId: Option<int>,
    aprovadoEm: Option<Timestamp>)

  /** A row of `empresa_documentos`. */
  datatype Documento = Documento(
    idEmpresaDocumento: int,
    idEmpresa: int,
    obrigatorio: bool,
    descricao: Option<string>,
    nomeArquivoOriginal: string,
    nomeArquivoArmazenado: string,
    mimeType: string,
    tamanhoBytes: nat,
    arquivoHashSha256: string,
    storageDriver: StorageDriver,
    storagePath: string,
    status: DocumentoStatus)

  /** A row of `empresa_responsaveis`. */
  datatype Responsavel = Responsavel(
    idEmpresaResponsavel: int,
    idEmpresa: int,
    idUsuarioExterno: int,
    ativo: bool,
    atribuidoPorUsuarioId: Option<int>,
    atribuidoEm: Timestamp)

  /** The exceptions the service throws, one per distinct message. */
  datatype Error =
    | EmpresaNaoEncontrada            // NotFoundException 'Empresa não encontrada.'
    | DocumentoNaoEncontrado          // NotFoundException 'Documento não encontrado.'
    | JuridicaSemRazaoSocialOuCnpj    // BadRequestException
    | FisicaSemNomeOuCpf              // BadRequestException
    | EstrangeiraSemIdentificador     // BadRequestException
    | EstrangeiraSemRazaoSocial       // BadRequestException
    | CriadorInvalido                 // BadRequestException 'criado_por_usuario_id inválido.'
    | AprovadorInvalido               // BadRequestException 'aprovado_por_usuario_id inválido.'
    | UsuarioExternoInvalido          // BadRequestException 'id_usuario_externo inválido.'
    | AtribuidorInvalido               // BadRequestException 'atribuido_por_usuario_id inválido.'
    | ArquivoObrigatorio              // BadRequestException 'Arquivo é obrigatório.'
    | TipoArquivoInvalido             // BadRequestException
    | ArquivoExcedeLimite             // BadRequestException
    | Conflito                        // ConflictException: the database refused the row
    | ErroInterno                     // an unhandled database error (HTTP 500)

  /** The HTTP status NestJS answers with for each exception. */
  function HttpStatus(e: Error): (code: nat)
    ensures code == 404 <==> e.EmpresaNaoEncontrada? || e.DocumentoNaoEncontrado?
    ensures code == 409 <==> e.Conflito?
    ensures code == 500 <==> e.ErroInterno?
    ensures code in {400, 404, 409, 500}
  {
    match e
    case EmpresaNaoEncontrada | DocumentoNaoEncontrado => 404
    case Conflito => 409
    case ErroInterno => 500
    case _ => 400
  }
}
