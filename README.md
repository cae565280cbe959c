# Companies registry: document store, approval workflow and dashboard helpers

This project models the core of a company-registration system.

- The back end's `EmpresasService` registers companies (`criar`, `atualizar`). It approves or rejects them from any status (`aprovar`, `reprovar`). It assigns each company one active responsible external user (`atribuirResponsavel`). It keeps the company's documents: upload with deduplication on (company, SHA-256 of the content), listing, soft removal and download.
- The validators of the registration body (`CreateEmpresaDto`) and of the upload form (`UploadDocumentoDto`, including the coercion of the `obrigatorio` flag).
- The dashboard's pure computations: the type and status labels, the profile-name table, the search filter and the counters.
- The front end's API base URL (`normalizeBaseUrl`).

Layout:

- `wrappers.dfy`: `Option` (`??`) and `Result` (a value or a thrown exception).
- `js_text.dfy`: the JavaScript string semantics the code relies on. That is `trim`, `toLowerCase`, `includes`, `join(' ')`, `String(n)` and the dynamic values of a request body.
- `entities.dfy`: the rows of `empresas`, `empresa_documentos` and `empresa_responsaveis`, their enums and the exceptions with their HTTP status.
- `storage.dfy`: `mimeToExt`, `normalizeOriginalName` and the relative storage path.
- `create_dto.dfy`, `upload_dto.dfy`: the two validators.
- `repository.dfy`: the tables and the storage directory as one value `Store`.
  - Each table is a map from key to row with the next key of its sequence.
  - Files are a map from relative path to bytes.
  - The predicate `Valid` holds in every reachable state. It covers keys and foreign keys, unique company identifiers, at most one active responsible user per company, documents agreeing with their files, and the deduplication key being unique.
- `empresa_ops.dfy`, `responsavel_ops.dfy`, `documento_ops.dfy`: each service operation as a transition `Store -> Step(store, result)`, with lemmas relating them.
- `service.dfy`: the class `EmpresasService`.
  - Its fields are the tables and the files.
  - Its methods follow the source step by step, changing the fields in place.
  - Each method is proved to produce the state and answer of its transition and to keep `Valid`.
- `home.dfy`: the dashboard helpers, including the loop that fills `perfisMap`.
- `env.dfy`: `normalizeBaseUrl` and the default API URL.

Outside effects are parameters:

- SHA-256 is an arbitrary function `Bytes -> string`, fixed per service.
- `crypto.randomUUID()` is a `token` argument. The upload method requires that the token's path is not taken yet.
- `new Date()` is a `now` argument.
- `MAX_UPLOAD_MB` is a `maxMb: nat` argument.
- The users and profiles tables are sets of existing ids.

The deduplication lookup (`empresas.service.ts:257-259`) has no status condition, so a `REMOVIDO` document is also returned, and re-uploading removed content does not reactivate it. `UploadDeduplicates` states this.

## Model

| member | source | states |
|---|---|---|
| DocumentStorage.MimeToExt | backend/src/empresas/empresas.service.ts:32-37 | the extension is non-empty exactly for the three allowed types, and is one of `.pdf`, `.png`, `.jpg` |
| DocumentStorage.MimeToExtInjective | backend/src/empresas/empresas.service.ts:25-37 | each allowed type has its own extension |
| DocumentStorage.NormalizeOriginalNameSpec | backend/src/empresas/empresas.service.ts:27-30 | the stored name has length min(\|name\|, 255); each character is the original one, except CR/LF/TAB become a space and `/`, `\` become `_` |
| DocumentStorage.NormalizeOriginalNameClean | backend/src/empresas/empresas.service.ts:27-30 | the stored name carries no CR, LF, TAB, `/` or `\` |
| DocumentStorage.NormalizeOriginalNameKeepsClean | backend/src/empresas/empresas.service.ts:27-30 | a clean name of at most 255 characters is stored unchanged |
| DocumentStorage.ReplaceControlBreaksAt | backend/src/empresas/empresas.service.ts:29 | the first `replace` keeps length and replaces exactly the CR/LF/TAB positions |
| DocumentStorage.ReplaceSeparatorsAt | backend/src/empresas/empresas.service.ts:29 | the second `replace` keeps length and replaces exactly the slash positions |
| DocumentStorage.StoragePathInjective | backend/src/empresas/empresas.service.ts:267-270 | distinct (company, stored name) pairs get distinct relative paths |
| DocumentStorage.StoragePathScoped | backend/src/empresas/empresas.service.ts:265-270 | for a UUID and an allowed type, the stored name is 40 characters with no separator and no leading dot |
| JsText.TrimEmptyIff | backend/src/empresas/empresas.service.ts:54 | `trim()` gives "" exactly when the text is all ECMAScript white space |
| JsText.IsBlankIff | backend/src/empresas/empresas.service.ts:54 | `!x?.trim()` holds exactly for an absent value or an all-white-space one |
| JsText.ToLower | frontend/app/src/pages/Home.tsx:82 | `toLowerCase` keeps the length and maps each character on its own |
| JsText.ToLowerIdempotent | frontend/app/src/pages/Home.tsx:82 | lower-casing leaves no capital, so a second pass changes nothing |
| JsText.IncludesIff | frontend/app/src/pages/Home.tsx:96 | `includes` is true exactly when the query occurs at some position |
| JsText.IncludesSound | frontend/app/src/pages/Home.tsx:96 | when `includes` is true the query occurs at some position |
| JsText.IncludesComplete | frontend/app/src/pages/Home.tsx:96 | an occurrence at any position makes `includes` true |
| JsText.JoinContainsParts | frontend/app/src/pages/Home.tsx:93-94 | every part occurs in `join(' ')` |
| JsText.DigitChar | backend/src/empresas/empresas.service.ts:270 | the digit character of d is the character d places after '0' |
| JsText.IntToDecimalInjective | backend/src/empresas/empresas.service.ts:270 | `String(idEmpresa)` differs for different ids |
| JsText.IntToDecimalIsOne | backend/src/empresas/dto/upload-documento.dto.ts:9-10 | the only number written "1" is 1 |
| Entities.HttpStatus | backend/src/empresas/empresas.service.ts:55-303 | not-found exceptions answer 404, conflicts 409, uncaught database errors 500, the rest 400 |
| CreateEmpresaValidation.TipoOf | backend/src/empresas/dto/create-empresa.dto.ts:12-13 | `tipo_pessoa` is accepted exactly for `JURIDICA`, `FISICA`, `ESTRANGEIRA` |
| CreateEmpresaValidation.Parse | backend/src/empresas/dto/create-empresa.dto.ts:11-59 | a body is accepted exactly when `IsValid` holds. An accepted body has `nome_fantasia` in [2,120] and `razao_social` absent or in [2,180]. JURIDICA has a 14-character `cnpj`. FISICA has `nome_pessoa` in [2,180] and an 11-character `cpf`. ESTRANGEIRA has `identificador_estrangeiro` in [2,60] and `razao_social_estrangeira` absent or in [2,180]. Every typed field carries the body's value: the type is the one named, `nome_fantasia` and the two ids are the given string and numbers, `faturamento_direto` is the given boolean or absent, and each optional text is absent exactly for null/undefined and otherwise the value's text, so an unchecked non-string value is kept, not dropped |
| CreateEmpresaValidation.CnpjOnlyCheckedForJuridica | backend/src/empresas/dto/create-empresa.dto.ts:31-34 | for a non-JURIDICA body any `cnpj` value passes, of any length or type, and reaches the service as its text |
| CreateEmpresaValidation.JuridicaNeedsFourteenCharCnpj | backend/src/empresas/dto/create-empresa.dto.ts:31-34 | a JURIDICA body with a `cnpj` not of 14 characters is refused |
| UploadDocumentoValidation.CoerceObrigatorio | backend/src/empresas/dto/upload-documento.dto.ts:6-11 | the result is undefined or a boolean; undefined exactly for undefined, null or `''`; a boolean is returned unchanged |
| UploadDocumentoValidation.CoerceString | backend/src/empresas/dto/upload-documento.dto.ts:9-10 | a non-empty text is true exactly when it is "1" or, ignoring case, "true" or "on" |
| UploadDocumentoValidation.CoerceNumber | backend/src/empresas/dto/upload-documento.dto.ts:9-10 | a number is true exactly when it is 1 |
| UploadDocumentoValidation.CoerceObject | backend/src/empresas/dto/upload-documento.dto.ts:9-10 | a plain object is false |
| UploadDocumentoValidation.CoerceIdempotent | backend/src/empresas/dto/upload-documento.dto.ts:6-11 | coercing a coerced value changes nothing |
| UploadDocumentoValidation.LowerCharDigit | backend/src/empresas/dto/upload-documento.dto.ts:9 | lower-casing yields "1" only from "1" |
| UploadDocumentoValidation.Parse | backend/src/empresas/dto/upload-documento.dto.ts:5-20 | the form is refused only for a `descricao` that is not a text of at most 120 characters; `obrigatorio` is absent exactly for undefined, null or `''`, and otherwise is the boolean the `@Transform` coercion gives; `descricao` is absent exactly for null/undefined and otherwise the given text |
| Repository.EmptyValid | backend/src/database/entities/empresa-documento.entity.ts:8-13 | empty tables with sequences at 1 satisfy the invariant |
| Repository.ValidDocumentoIndex | backend/src/database/entities/empresa-documento.entity.ts:8-13 | in a valid state document keys are below the sequence, equal to the row id, and (company, hash) is unique |
| Repository.KeysDescendingComplete | backend/src/empresas/empresas.service.ts:109-112 | `ORDER BY id DESC` lists every key in range |
| Repository.KeysDescending | backend/src/empresas/empresas.service.ts:109-112 | the listed keys are strictly decreasing and in the table |
| Repository.BuscarPorId | backend/src/empresas/empresas.service.ts:115-119 | the company with that id, or NotFound exactly when there is none |
| Repository.Listar | backend/src/empresas/empresas.service.ts:107-113 | every listed company is in the table and has the status asked for (an empty status asks for all) |
| Repository.ListarSpec | backend/src/empresas/empresas.service.ts:107-113 | the listing holds every matching company, by strictly decreasing id |
| EmpresaOps.TypeRuleError | backend/src/empresas/empresas.service.ts:53-73 | no error exactly when the per-type rules hold. The checks run in the source's order, and a foreign company without identifier is reported before a missing corporate name |
| EmpresaOps.Criar | backend/src/empresas/empresas.service.ts:51-105 | a broken type rule answers that rule's error (400); success exactly when the type rules hold, the creator exists and the database accepts the row (foreign keys, unique identifiers); CriadorInvalido exactly for valid rules with an unknown creator; Conflict exactly for valid rules, a known creator and a refused row; a failure changes nothing; the new company holds the submitted type, trade name, profile, identifiers and creator, is PENDENTE, never approved, `faturamentoDireto` false unless asked, satisfies its type's rules, and takes the next key |
| EmpresaOps.Atualizar | backend/src/empresas/empresas.service.ts:121-165 | NotFound for an unknown id; a body breaking the type rules is refused with a rule error; success exactly when the company exists, the rules hold and the merged row is accepted, Conflict exactly when the merged row is refused; on success the row is the merge `dto ?? current`, approval fields untouched, and nothing else changes |
| EmpresaOps.AtualizarWithTipoKeepsTypeRules | backend/src/empresas/empresas.service.ts:124-158 | an update naming the type leaves a company that satisfies that type's rules |
| EmpresaOps.AtualizarWithoutTipoSkipsTypeRules | backend/src/empresas/empresas.service.ts:124-158 | the rules are checked on the body only: without `tipo_pessoa` a JURIDICA company's CNPJ can be blanked |
| EmpresaOps.Aprovar | backend/src/empresas/empresas.service.ts:167-179 | from any status: success exactly when company and approver exist; the row becomes APROVADA with no rejection reason, the approver and the time; failures change nothing |
| EmpresaOps.Reprovar | backend/src/empresas/empresas.service.ts:181-193 | from any status: success exactly when company and approver exist; the row becomes REPROVADA with the reason, the approver and the time; failures change nothing |
| EmpresaOps.ReprovarThenAprovar | backend/src/empresas/empresas.service.ts:167-193 | a rejected company can be approved, which clears the reason |
| EmpresaOps.CriarPreservesValid | backend/src/empresas/empresas.service.ts:81-104 | registration keeps the invariant |
| EmpresaOps.AtualizarPreservesValid | backend/src/empresas/empresas.service.ts:146-164 | an update keeps the invariant |
| EmpresaOps.AprovarPreservesValid | backend/src/empresas/empresas.service.ts:174-178 | approval keeps the invariant |
| EmpresaOps.ReprovarPreservesValid | backend/src/empresas/empresas.service.ts:188-192 | rejection keeps the invariant |
| EmpresaOps.SameIdentifierSymmetric | backend/src/empresas/empresas.service.ts:102 | two companies clash on an identifier symmetrically |
| ResponsavelOps.DesativarResponsaveis | backend/src/empresas/empresas.service.ts:210-211 | the bulk update keeps every key, changes only `ativo`, leaves no active row of the company and touches no other company's rows |
| ResponsavelOps.AtribuirResponsavelAsWritten | backend/src/empresas/empresas.service.ts:195-221 | as written: success exactly when company, external user and any given assigner exist; an internal error exactly for assigner 0 when 0 is no user |
| ResponsavelOps.AtribuirResponsavel | backend/src/empresas/empresas.service.ts:195-221 | the errors in order (company, external user, any given assigner) with the state unchanged; on success the new row takes the next key, is stored under it and is the company's only active one, earlier rows change only in `ativo`, and other companies' rows are untouched |
| ResponsavelOps.AsWrittenAgreesExceptOnZero | backend/src/empresas/empresas.service.ts:203-208 | the corrected operation equals the source's on every input except assigner 0 with no user 0 |
| ResponsavelOps.AssignerZeroDropsActiveResponsavel | backend/src/empresas/empresas.service.ts:203-220 | with assigner 0 the source answers 500 and leaves the company with no active responsible user; the corrected one refuses and keeps it |
| ResponsavelOps.AssignerZeroExample | backend/src/empresas/empresas.service.ts:203-220 | the same on a concrete state |
| ResponsavelOps.AtribuirResponsavelPreservesValid | backend/src/empresas/empresas.service.ts:195-221 | assignment keeps the invariant, at most one active responsible user per company included |
| DocumentoOps.FirstWithKey | backend/src/empresas/empresas.service.ts:257-259 | a found id is in the list and its document has the (company, hash) key; none only when no id of the list has it |
| DocumentoOps.FirstWithKeyIndex | backend/src/empresas/empresas.service.ts:257-259 | the found id sits at a position of the list before which no id has the key: it is the first one |
| DocumentoOps.FindByKey | backend/src/empresas/empresas.service.ts:257-259 | a found document is stored and has the key |
| DocumentoOps.FindByKeySpec | backend/src/empresas/empresas.service.ts:257-259 | in a valid state the lookup finds nothing exactly when no document has the key, and otherwise finds that document, whatever its status |
| DocumentoOps.Upload | backend/src/empresas/empresas.service.ts:241-297 | errors in the source's order (company, missing file, type, size > maxMb·1024·1024) with the state unchanged; success exactly when all checks pass; the returned document is stored and has the (company, hash) key |
| DocumentoOps.UploadDeduplicates | backend/src/empresas/empresas.service.ts:255-263 | content the company already has (any status) returns that document and changes nothing |
| DocumentoOps.UploadInsertsNew | backend/src/empresas/empresas.service.ts:265-292 | new content inserts one ATIVO, `local` document under the next key with `obrigatorio` default true, the given `descricao`, the sanitized name, size and hash, name `token + .pdf/.png/.jpg` and path `empresas/<id>/documentos/<name>`, and writes the bytes there |
| DocumentoOps.UploadIdempotent | backend/src/empresas/empresas.service.ts:255-292 | uploading the same file again returns the same document and changes nothing |
| DocumentoOps.UploadDedupIsPerCompany | backend/src/empresas/empresas.service.ts:257-259 | another company's copy of the content does not prevent an insert |
| DocumentoOps.UploadPreservesValid | backend/src/empresas/empresas.service.ts:241-297 | with a fresh token path an upload keeps the invariant, (company, hash) uniqueness included |
| DocumentoOps.NewDocumentoKeepsValid | backend/src/empresas/empresas.service.ts:274-292 | inserting a well-formed document with fresh key, path and dedup key keeps the invariant |
| DocumentoOps.ListarDocumentos | backend/src/empresas/empresas.service.ts:223-229 | NotFound exactly for an unknown company; otherwise only that company's documents |
| DocumentoOps.ListarDocumentosSpec | backend/src/empresas/empresas.service.ts:223-229 | the listing holds every document of the company, removed ones too, by strictly decreasing id |
| DocumentoOps.FindDocumento | backend/src/empresas/empresas.service.ts:233-236 | found exactly when the id belongs to that company |
| DocumentoOps.RemoverDocumento | backend/src/empresas/empresas.service.ts:231-239 | success exactly when the company exists and the document is one of its own; NotFound for an unknown company or a document of another company, state unchanged; otherwise only the status becomes REMOVIDO |
| DocumentoOps.RemoverIdempotent | backend/src/empresas/empresas.service.ts:231-239 | removing twice is removing once |
| DocumentoOps.RemoverPreservesValid | backend/src/empresas/empresas.service.ts:231-239 | removal keeps the invariant |
| DocumentoOps.BaixarDocumento | backend/src/empresas/empresas.service.ts:299-311 | success exactly when the company exists and the document is one of its own; NotFound for an unknown company or another company's document; otherwise the document, any status, and its file's content |
| DocumentoOps.BaixarHasContent | backend/src/empresas/empresas.service.ts:299-311 | in a valid state a download has content of the recorded size and hash |
| DocumentoOps.UploadThenBaixar | backend/src/empresas/empresas.service.ts:241-311 | a new upload downloads the same bytes, type and sanitized name |
| DocumentoOps.UploadThenBaixarSameHash | backend/src/empresas/empresas.service.ts:241-311 | any accepted upload downloads content with the uploaded file's hash |
| DocumentoOps.RemoverThenBaixar | backend/src/empresas/empresas.service.ts:231-311 | a removed document still downloads, status REMOVIDO and file kept |
| DocumentoOps.OtherCompanyDocumentNotFound | backend/src/empresas/empresas.service.ts:231-304 | another company's document is neither removed nor downloaded |
| Service.EmpresasService.constructor | backend/src/empresas/empresas.service.ts:41-49 | empty tables and storage, valid |
| Service.EmpresasService.Criar | backend/src/empresas/empresas.service.ts:51-105 | the state and answer of `EmpresaOps.Criar`; keeps the invariant |
| Service.EmpresasService.Listar | backend/src/empresas/empresas.service.ts:107-113 | by decreasing id, a company is listed exactly when it has the status |
| Service.EmpresasService.BuscarPorId | backend/src/empresas/empresas.service.ts:115-119 | the answer of `Repository.BuscarPorId`; in a valid state the found company has that id |
| Service.EmpresasService.Atualizar | backend/src/empresas/empresas.service.ts:121-165 | the state and answer of `EmpresaOps.Atualizar`; keeps the invariant |
| Service.EmpresasService.Aprovar | backend/src/empresas/empresas.service.ts:167-179 | the state and answer of `EmpresaOps.Aprovar`; keeps the invariant |
| Service.EmpresasService.Reprovar | backend/src/empresas/empresas.service.ts:181-193 | the state and answer of `EmpresaOps.Reprovar`; keeps the invariant |
| Service.EmpresasService.AtribuirResponsavel | backend/src/empresas/empresas.service.ts:195-221 | the state and answer of the corrected `ResponsavelOps.AtribuirResponsavel`; keeps the invariant |
| Service.EmpresasService.ListarDocumentos | backend/src/empresas/empresas.service.ts:223-229 | every document of the company, by decreasing id |
| Service.EmpresasService.RemoverDocumento | backend/src/empresas/empresas.service.ts:231-239 | the state and answer of `DocumentoOps.RemoverDocumento`; keeps the invariant |
| Service.EmpresasService.UploadDocumento | backend/src/empresas/empresas.service.ts:241-297 | the state and answer of `DocumentoOps.Upload`; keeps the invariant |
| Service.EmpresasService.BaixarDocumento | backend/src/empresas/empresas.service.ts:299-311 | the answer of `DocumentoOps.BaixarDocumento`, always with content whose hash is the recorded one |
| Home.FormatTipoPessoa | frontend/app/src/pages/Home.tsx:24-28 | "Pessoa Jurídica" exactly for JURIDICA, "Pessoa Física" exactly for FISICA, "Estrangeira" for anything else |
| Home.FormatTipoPessoaInjective | frontend/app/src/pages/Home.tsx:24-28 | the three types get three labels |
| Home.BadgeStatus | frontend/app/src/pages/Home.tsx:30-34 | "Aprovada" and its colour exactly for APROVADA, "Reprovada" and its colour exactly for REPROVADA, "Pendente" for anything else |
| Home.BadgeStatusInjective | frontend/app/src/pages/Home.tsx:30-34 | the three statuses get three labels and three colours |
| Home.PerfisMapLastWins | frontend/app/src/pages/Home.tsx:75-79 | the table has an entry for every listed id, named after the last profile with that id |
| Home.BuildPerfisMap | frontend/app/src/pages/Home.tsx:75-79 | the loop builds that table |
| Home.Present | frontend/app/src/pages/Home.tsx:92 | `filter(Boolean)` keeps every non-empty text, and every kept text is one of the given fields |
| Home.PresentConcat | frontend/app/src/pages/Home.tsx:86-92 | the filter works field by field in order: a concatenation filters to the concatenation of the filtered parts, and one field is kept exactly when it is a non-empty text |
| Home.Filtrar | frontend/app/src/pages/Home.tsx:83-97 | `filter` with the callback: no more companies than given; each listed one is given and passes the callback |
| Home.EmpresasFiltradas | frontend/app/src/pages/Home.tsx:81-99 | with the query trimmed and lower-cased once, each listed company is given and passes the filter |
| Home.FiltradasIsSubsequence | frontend/app/src/pages/Home.tsx:83 | the result is an order-preserving subsequence of the input |
| Home.FiltradasMembership | frontend/app/src/pages/Home.tsx:83-97 | a company is listed exactly when it is given and passes the filter |
| Home.FiltradasHaveStatus | frontend/app/src/pages/Home.tsx:84 | with a status chosen, every listed company has it |
| Home.BlankQueryKeepsAll | frontend/app/src/pages/Home.tsx:82-85 | a blank query filters by status only; with TODOS it returns the input |
| Home.FiltradasAllKept | frontend/app/src/pages/Home.tsx:83-97 | when every company passes the callback, the input comes back unchanged |
| Home.QueryMatchIff | frontend/app/src/pages/Home.tsx:85-96 | with a visible query, a company of the right status is listed exactly when the lower-cased query occurs in its lower-cased, space-joined, non-empty fields |
| Home.NomeFantasiaMatchIsKept | frontend/app/src/pages/Home.tsx:86-96 | a trade name containing the query, ignoring case, is found |
| Home.NomeFantasiaInHaystack | frontend/app/src/pages/Home.tsx:86-95 | the lower-cased trade name occurs in the searched text |
| Home.OccursAtLower | frontend/app/src/pages/Home.tsx:95-96 | lower-casing keeps occurrences |
| Home.CountStatus | frontend/app/src/pages/Home.tsx:103-104 | a status count never exceeds the number of companies |
| Home.CountsAddUp | frontend/app/src/pages/Home.tsx:101-105 | the three status counts add up to the total |
| Home.CountStatusPositiveIff | frontend/app/src/pages/Home.tsx:103-104 | a status count is positive exactly when some company has that status |
| Home.CountStatusConcat | frontend/app/src/pages/Home.tsx:103-104 | the count over a concatenation is the sum of the counts |
| Home.ComputeStats | frontend/app/src/pages/Home.tsx:101-105 | total is the number of companies, `pendentes` counts PENDENTE and `aprovadas` counts APROVADA; pending plus approved never exceeds the total, with equality exactly when none is rejected |
| Env.NormalizeBaseUrl | frontend/app/src/lib/env.ts:1-3 | the result never ends in `/`, is a prefix of the input, and only `/` were removed |
| Env.NormalizeKeepsUnslashed | frontend/app/src/lib/env.ts:1-3 | an input not ending in `/` is unchanged |
| Env.NormalizeIdempotent | frontend/app/src/lib/env.ts:1-3 | normalizing twice is normalizing once |
| Env.NormalizeKeepsLastOtherChar | frontend/app/src/lib/env.ts:2 | every character up to the last non-slash is kept |
| Env.NormalizeAllSlashes | frontend/app/src/lib/env.ts:2 | an input of slashes only becomes "" |
| Env.ApiUrl | frontend/app/src/lib/env.ts:5-7 | an unset or empty variable gives `http://localhost:3000`; otherwise the normalized variable |

## Left out

- File-system I/O (`mkdir`, `writeFile`, `createReadStream`) is a map from relative path to bytes. The storage root and absolute paths are not modelled. A missing file is a download with no content.
- SHA-256 is an arbitrary function. Hash collisions are therefore possible in the model, and `UploadThenBaixarSameHash` promises only equal hashes for a deduplicated upload.
- `crypto.randomUUID()` is a caller-supplied token. Its freshness is a precondition of the upload method and of `UploadPreservesValid`.
- `MAX_UPLOAD_MB` is read through `Number(...)` with float coercion (a non-numeric value gives NaN and no limit). This is not modelled: the limit is a natural number of megabytes. The interceptor's own size limit in the controller is not part of this model.
- The concurrent dedup-then-insert race is not modelled, because the model is sequential. In the source, that race ends in `ConflictException` at `empresas.service.ts:291-296`. `Upload` therefore never answers Conflict.
- Upload: column length limits that could make the final `save` fail are not modelled. These are `char(64)` for the hash, `varchar(500)` for the path and `varchar(50)` for the type.
- The `extname` fallback at `empresas.service.ts:265` is not modelled. The type check runs first, so `MimeToExt` is never empty there (`MimeToExt`'s ensures).
- `createdAt`/`updatedAt` columns, timestamps produced by the database, and `ON DELETE CASCADE` are not modelled. No delete operation exists in this core.
- Of the database constraints, the model enforces the foreign keys to profile, creator, approver, external user and assigner, and the unique CNPJ, CPF and foreign identifier. The uniqueness is known only from the comment at `empresas.service.ts:102`. Column types and lengths and any `CHECK` constraint are not enforced.
- EmpresaOps.Criar: the column lengths of `empresas` (`char(14)` CNPJ, `char(11)` CPF and the `varchar` limits) are not checked. A FISICA body carrying a 15-character `cnpj` passes the DTO, whose CNPJ rules apply only to JURIDICA; the database would refuse the INSERT with 409, while the model accepts the row. PostgreSQL's `char(n)` padding and trailing-space truncation are the reason this is left out. `EmpresaOps.Atualizar` has the same gap.
- EmpresaOps.Criar: a refused INSERT still consumes a value of the database id sequence. The model leaves `nextEmpresaId` unchanged on failure, so after a conflict the model's next id can be lower than the database's. Ids are only compared for equality and order, which the gap does not change.
- ResponsavelOps.AtribuirResponsavelAsWritten: the insert refused by the foreign key likewise consumes a value of the responsible-user id sequence; the model leaves `nextResponsavelId` unchanged.
- `update-empresa.dto.ts` and `aprovar-empresa.dto.ts` are not part of this model. The update body is taken as every registration field made optional. Approval takes an approver id.
- EmpresaOps.Atualizar: the body's field lengths are not validated, because the update DTO is not part of this model.
- Validation of a request body covers strings, integers, booleans, null/undefined and plain objects. Floating-point numbers and arrays are not represented.
- CreateEmpresaValidation.Parse: a field whose `@ValidateIf` is off reaches the service unchecked and is stored as `String(value)`. The database driver serialises a plain object as JSON rather than as `[object Object]`, and the row the service returns still holds the original non-string value; neither is modelled.
- `toLowerCase` is modelled for ASCII and Latin-1 capitals only. Other Unicode case mappings (including ones that change length) are not.
- Text lengths are counted in code points, not UTF-16 code units.
- The controller, routing, HTTP headers and `encodeURIComponent`, TypeORM and decorator mechanics, and module wiring are not modelled.
- Home.tsx: React state, effects, loading and rendering are not modelled. Only the memoised computations and the two label helpers are.
- The front-end company record is represented by the back-end row type it is serialised from.
- The `Reprovar` reason's length bound [3,500] belongs to its DTO and is not enforced by the operation.

## Findings

| source | as written | input that shows it | evidently intended | confidence | as-written member | corrected member |
|---|---|---|---|---|---|---|
| backend/src/empresas/empresas.service.ts:203-220 | `if (dto.atribuido_por_usuario_id)` skips the assigner check for id 0. The previous active responsible users are then deactivated, and the insert fails on the foreign key with an uncaught error (500). | Company 1 has active responsible user 1. The request is `{ id_usuario_externo: 2, atribuido_por_usuario_id: 0 }` and there is no user 0. The answer is 500, and company 1 is left with no active responsible user. | Check every given assigner (`!== undefined`) before changing anything; answer 400 and keep the current responsible user. | medium, not executed | ResponsavelOps.AtribuirResponsavelAsWritten, ResponsavelOps.AssignerZeroDropsActiveResponsavel, ResponsavelOps.AssignerZeroExample | ResponsavelOps.AtribuirResponsavel, ResponsavelOps.AtribuirResponsavelPreservesValid |
