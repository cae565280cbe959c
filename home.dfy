/**
 * The computations of the companies dashboard: the labels of a company's type and status,
 * the profile-name lookup table, the search filter and the counters.
 */
module Home {
  import opened Wrappers
  import opened JsText
  import opened Entities
  import opened Repository

  // ---------------------------------------------------------------- labels

  function TipoName(t: TipoPessoa): string {
    match t
    case Juridica => "JURIDICA"
    case Fisica => "FISICA"
    case Estrangeira => "ESTRANGEIRA"
  }

  /** `formatTipoPessoa`, on the text the API sends: any text other than the two named types reads "Estrangeira". */
  function FormatTipoPessoa(tipo: string): (text: string)
    ensures text in {"Pessoa Jurídica", "Pessoa Física", "Estrangeira"}
    ensures text == "Pessoa Jurídica" <==> tipo == "JURIDICA"
    ensures text == "Pessoa Física" <==> tipo == "FISICA"
  {
    if tipo == "JURIDICA" then "Pessoa Jurídica"
    else if tipo == "FISICA" then "Pessoa Física"
    else "Estrangeira"
  }

  /** Every type has its own label. */
  lemma FormatTipoPessoaInjective(a: TipoPessoa, b: TipoPessoa)
    requires FormatTipoPessoa(TipoName(a)) == FormatTipoPessoa(TipoName(b))
    ensures a == b
  {
  }

  datatype Badge = Badge(caption: string, className: string)

  /** `badgeStatus`, on the text the API sends: any text other than the two decisions reads "Pendente". */
  function BadgeStatus(status: string): (b: Badge)
    ensures b.caption in {"Aprovada", "Reprovada", "Pendente"}
    ensures b.caption == "Aprovada" <==> status == "APROVADA"
    ensures b.caption == "Reprovada" <==> status == "REPROVADA"
    ensures b.className == "bg-[#0B1020] text-white" <==> status == "APROVADA"
    ensures b.className == "bg-[#D1162F] text-white" <==> status == "REPROVADA"
  {
    if status == "APROVADA" then Badge("Aprovada", "bg-[#0B1020] text-white")
    else if status == "REPROVADA" then Badge("Reprovada", "bg-[#D1162F] text-white")
    else Badge("Pendente", "bg-[#F59E0B] text-white")
  }

  /** Every status has its own label and its own colour. */
  lemma BadgeStatusInjective(a: StatusAprovacao, b: StatusAprovacao)
    requires BadgeStatus(StatusName(a)).caption == BadgeStatus(StatusName(b)).caption
          || BadgeStatus(StatusName(a)).className == BadgeStatus(StatusName(b)).className
    ensures a == b
  {
  }

  // ---------------------------------------------------------------- profile names

  datatype EmpresaPerfil = EmpresaPerfil(idEmpresaPerfil: int, nome: string)

  /** The table `new Map()` holds after `map.set(p.idEmpresaPerfil, p.nome)` for each profile in turn. */
  function PerfisMap(perfis: seq<EmpresaPerfil>): map<int, string> {
    if perfis == [] then map[]
    else
      var last := perfis[|perfis| - 1];
      PerfisMap(perfis[..|perfis| - 1])[last.idEmpresaPerfil := last.nome]
  }

  /** The last profile listed under an id gives that id its name. */
  predicate LastNamed(perfis: seq<EmpresaPerfil>, id: int, nome: string) {
    exists i :: 0 <= i < |perfis| && perfis[i] == EmpresaPerfil(id, nome)
      && forall j :: i < j < |perfis| ==> perfis[j].idEmpresaPerfil != id
  }

  /** Every listed id has an entry, and each entry is the name of the last profile with that id. */
  lemma {:induction false} PerfisMapLastWins(perfis: seq<EmpresaPerfil>)
    ensures PerfisMap(perfis).Keys == set p | p in perfis :: p.idEmpresaPerfil
    ensures forall id | id in PerfisMap(perfis) :: LastNamed(perfis, id, PerfisMap(perfis)[id])
  {
    if perfis != [] {
      var n := |perfis| - 1;
      var init := perfis[..n];
      var last := perfis[n];
      PerfisMapLastWins(init);
      assert perfis == init + [last];
      var m := PerfisMap(perfis);
      forall id | id in m ensures LastNamed(perfis, id, m[id]) {
        if id == last.idEmpresaPerfil {
          assert perfis[n] == EmpresaPerfil(id, m[id]);
        } else {
          var i :| 0 <= i < |init| && init[i] == EmpresaPerfil(id, m[id])
            && forall j :: i < j < |init| ==> init[j].idEmpresaPerfil != id;
          assert perfis[i] == init[i];
          assert forall j :: i < j < |perfis| ==> perfis[j].idEmpresaPerfil != id by {
            forall j | i < j < |perfis| ensures perfis[j].idEmpresaPerfil != id {
              if j < n { assert perfis[j] == init[j]; }
            }
          }
        }
      }
    }
  }

  /** The `perfisMap` memo: the loop over the profiles, filling the table. */
  method BuildPerfisMap(perfis: seq<EmpresaPerfil>) returns (m: map<int, string>)
    ensures m == PerfisMap(perfis)
    ensures m.Keys == set p | p in perfis :: p.idEmpresaPerfil
    ensures forall id | id in m :: LastNamed(perfis, id, m[id])
  {
    m := map[];
    for k := 0 to |perfis|
      invariant m == PerfisMap(perfis[..k])
    {
      assert perfis[..k + 1][..k] == perfis[..k];
      m := m[perfis[k].idEmpresaPerfil := perfis[k].nome];
    }
    assert perfis[..|perfis|] == perfis;
    PerfisMapLastWins(perfis);
  }

  // ---------------------------------------------------------------- search filter

  datatype StatusFiltro = Todos | Somente(status: StatusAprovacao)

  /** `[...].filter(Boolean)`: drops null, undefined and empty texts. */
  function Present(fields: seq<Option<string>>): (r: seq<string>)
    ensures |r| <= |fields|
    ensures forall i | 0 <= i < |r| :: r[i] != "" && Some(r[i]) in fields
    ensures forall i | 0 <= i < |fields| && fields[i].Some? && fields[i].value != "" :: fields[i].value in r
  {
    if fields == [] then []
    else (if fields[0].Some? && fields[0].value != "" then [fields[0].value] else []) + Present(fields[1..])
  }

  /**
   * `filter` works field by field and keeps the order: filtering a concatenation is
   * concatenating the filtered parts, and one field is kept alone exactly when it is a non-empty text.
   */
  lemma {:induction false} PresentConcat(a: seq<Option<string>>, b: seq<Option<string>>)
    ensures Present(a + b) == Present(a) + Present(b)
    ensures |a| == 1 ==> Present(a) == (if a[0].Some? && a[0].value != "" then [a[0].value] else [])
  {
    if a == [] {
      assert a + b == b;
    } else {
      assert (a + b)[0] == a[0] && (a + b)[1..] == a[1..] + b;
      PresentConcat(a[1..], b);
    }
  }

  /** The searchable fields of a company, the profile name looked up in the table. */
  function SearchFields(e: Empresa, perfis: map<int, string>): seq<Option<string>> {
    [Some(e.nomeFantasia), e.razaoSocial, e.nomePessoa, e.cnpj, e.cpf,
     if e.idEmpresaPerfil in perfis then Some(perfis[e.idEmpresaPerfil]) else None]
  }

  /** The lower-cased text the query is searched in. */
  function Haystack(e: Empresa, perfis: map<int, string>): string {
    ToLower(JoinWithSpace(Present(SearchFields(e, perfis))))
  }

  /** `busca.trim().toLowerCase()`. */
  function Query(busca: string): string {
    ToLower(Trim(busca))
  }

  predicate StatusOk(e: Empresa, filtro: StatusFiltro) {
    filtro.Todos? || e.statusAprovacao == filtro.status
  }

  /** The callback of `empresas.filter`. */
  predicate Keep(e: Empresa, perfis: map<int, string>, q: string, filtro: StatusFiltro) {
    if !StatusOk(e, filtro) then false
    else if q == "" then true
    else Includes(Haystack(e, perfis), q)
  }

  /** `empresas.filter(...)` with the callback `Keep` and the query already prepared. */
  function Filtrar(empresas: seq<Empresa>, perfis: map<int, string>, q: string, filtro: StatusFiltro): (r: seq<Empresa>)
    ensures |r| <= |empresas|
    ensures forall i | 0 <= i < |r| :: r[i] in empresas && Keep(r[i], perfis, q, filtro)
  {
    if empresas == [] then []
    else
      var rest := Filtrar(empresas[1..], perfis, q, filtro);
      if Keep(empresas[0], perfis, q, filtro) then [empresas[0]] + rest else rest
  }

  /** `empresasFiltradas`: the query is trimmed and lower-cased once, then the list is filtered. */
  function EmpresasFiltradas(empresas: seq<Empresa>, perfis: map<int, string>, busca: string, filtro: StatusFiltro): (r: seq<Empresa>)
    ensures |r| <= |empresas|
    ensures forall i | 0 <= i < |r| :: r[i] in empresas && Keep(r[i], perfis, Query(busca), filtro)
  {
    Filtrar(empresas, perfis, Query(busca), filtro)
  }

  /** `a` is `b` with some elements left out, the others in their order. */
  predicate SubsequenceOf<T(==)>(a: seq<T>, b: seq<T>)
    decreases |b|
  {
    a == [] || (b != [] && ((a[0] == b[0] && SubsequenceOf(a[1..], b[1..])) || SubsequenceOf(a, b[1..])))
  }

  /** The filter keeps companies in the order they arrived. */
  lemma {:induction false} FiltradasIsSubsequence(empresas: seq<Empresa>, perfis: map<int, string>, q: string, filtro: StatusFiltro)
    ensures SubsequenceOf(Filtrar(empresas, perfis, q, filtro), empresas)
  {
    if empresas != [] {
      FiltradasIsSubsequence(empresas[1..], perfis, q, filtro);
      var rest := Filtrar(empresas[1..], perfis, q, filtro);
      var r := Filtrar(empresas, perfis, q, filtro);
      if Keep(empresas[0], perfis, q, filtro) {
        assert r[0] == empresas[0] && r[1..] == rest;
      }
    }
  }

  /** A company is listed exactly when it is in the input and passes the filter. */
  lemma {:induction false} FiltradasMembership(empresas: seq<Empresa>, perfis: map<int, string>, q: string, filtro: StatusFiltro, e: Empresa)
    ensures e in Filtrar(empresas, perfis, q, filtro) <==> e in empresas && Keep(e, perfis, q, filtro)
  {
    if empresas != [] {
      FiltradasMembership(empresas[1..], perfis, q, filtro, e);
      assert e in empresas <==> e == empresas[0] || e in empresas[1..];
    }
  }

  /** With a status chosen, every listed company has it. */
  lemma FiltradasHaveStatus(empresas: seq<Empresa>, perfis: map<int, string>, busca: string, st: StatusAprovacao)
    ensures forall e | e in EmpresasFiltradas(empresas, perfis, busca, Somente(st)) :: e.statusAprovacao == st
  {
  }

  /** When every company passes, the filter returns the input itself. */
  lemma {:induction false} FiltradasAllKept(empresas: seq<Empresa>, perfis: map<int, string>, q: string, filtro: StatusFiltro)
    requires forall i | 0 <= i < |empresas| :: Keep(empresas[i], perfis, q, filtro)
    ensures Filtrar(empresas, perfis, q, filtro) == empresas
  {
    if empresas != [] {
      FiltradasAllKept(empresas[1..], perfis, q, filtro);
      assert Keep(empresas[0], perfis, q, filtro);
      assert Filtrar(empresas, perfis, q, filtro) == [empresas[0]] + empresas[1..];
      HeadTail(empresas);
    }
  }

  lemma HeadTail<T>(s: seq<T>)
    requires s != []
    ensures [s[0]] + s[1..] == s
  {
  }

  /** A query of white space only filters by status alone; with no status chosen it lists everything. */
  lemma BlankQueryKeepsAll(empresas: seq<Empresa>, perfis: map<int, string>, busca: string, filtro: StatusFiltro)
    requires AllWhitespace(busca)
    ensures forall e :: e in EmpresasFiltradas(empresas, perfis, busca, filtro) <==> e in empresas && StatusOk(e, filtro)
    ensures filtro.Todos? ==> EmpresasFiltradas(empresas, perfis, busca, filtro) == empresas
  {
    TrimEmptyIff(busca);
    var q := Query(busca);
    assert q == "";
    forall e ensures e in Filtrar(empresas, perfis, q, filtro) <==> e in empresas && StatusOk(e, filtro) {
      FiltradasMembership(empresas, perfis, q, filtro, e);
    }
    if filtro.Todos? {
      FiltradasAllKept(empresas, perfis, q, filtro);
    }
  }

  /** With a visible query, a company passing the status filter is listed exactly when the query occurs in its haystack. */
  lemma QueryMatchIff(empresas: seq<Empresa>, perfis: map<int, string>, busca: string, filtro: StatusFiltro, e: Empresa)
    requires !AllWhitespace(busca) && e in empresas && StatusOk(e, filtro)
    ensures e in EmpresasFiltradas(empresas, perfis, busca, filtro) <==>
      exists k: nat :: OccursAt(Haystack(e, perfis), Query(busca), k)
  {
    TrimEmptyIff(busca);
    FiltradasMembership(empresas, perfis, Query(busca), filtro, e);
    IncludesIff(Haystack(e, perfis), Query(busca));
  }

  /** Lower-casing keeps every occurrence, lower-cased. */
  lemma OccursAtLower(hay: string, q: string, k: nat)
    requires OccursAt(hay, q, k)
    ensures OccursAt(ToLower(hay), ToLower(q), k)
  {
    assert forall i | 0 <= i < |q| :: ToLower(hay)[k + i] == LowerChar(hay[k + i]) && hay[k + i] == q[i];
  }

  /** An occurrence inside an occurrence. */
  lemma OccursAtNested(hay: string, p: string, q: string, k: nat, j: nat)
    requires OccursAt(hay, p, k) && OccursAt(p, q, j)
    ensures OccursAt(hay, q, k + j)
  {
    assert forall i | 0 <= i < |q| :: hay[k + j + i] == p[j + i] == q[i];
  }

  /** The trade name, lower-cased, occurs in the haystack. */
  lemma NomeFantasiaInHaystack(e: Empresa, perfis: map<int, string>) returns (k: nat)
    requires e.nomeFantasia != ""
    ensures OccursAt(Haystack(e, perfis), ToLower(e.nomeFantasia), k)
  {
    var parts := Present(SearchFields(e, perfis));
    assert e.nomeFantasia in parts by {
      assert SearchFields(e, perfis)[0] == Some(e.nomeFantasia);
    }
    var idx :| 0 <= idx < |parts| && parts[idx] == e.nomeFantasia;
    JoinContainsParts(parts, idx);
    k :| OccursAt(JoinWithSpace(parts), e.nomeFantasia, k);
    OccursAtLower(JoinWithSpace(parts), e.nomeFantasia, k);
  }

  /** A company whose trade name contains the query, ignoring case, is found by the search. */
  lemma NomeFantasiaMatchIsKept(empresas: seq<Empresa>, perfis: map<int, string>, busca: string, filtro: StatusFiltro, e: Empresa)
    requires e in empresas && StatusOk(e, filtro) && !AllWhitespace(busca)
    requires exists j: nat :: OccursAt(ToLower(e.nomeFantasia), Query(busca), j)
    ensures e in EmpresasFiltradas(empresas, perfis, busca, filtro)
  {
    var j: nat :| OccursAt(ToLower(e.nomeFantasia), Query(busca), j);
    TrimEmptyIff(busca);
    assert |Query(busca)| > 0;
    var k := NomeFantasiaInHaystack(e, perfis);
    OccursAtNested(Haystack(e, perfis), ToLower(e.nomeFantasia), Query(busca), k, j);
    QueryMatchIff(empresas, perfis, busca, filtro, e);
  }

  // ---------------------------------------------------------------- counters

  /** `empresas.filter((e) => e.statusAprovacao === st).length`. */
  function CountStatus(empresas: seq<Empresa>, st: StatusAprovacao): (n: nat)
    ensures n <= |empresas|
  {
    if empresas == [] then 0
    else (if empresas[0].statusAprovacao == st then 1 else 0) + CountStatus(empresas[1..], st)
  }

  /** Each company has exactly one of the three statuses, so the three counts add up to the total. */
  lemma {:induction false} CountsAddUp(empresas: seq<Empresa>)
    ensures CountStatus(empresas, Pendente) + CountStatus(empresas, Aprovada) + CountStatus(empresas, Reprovada) == |empresas|
  {
    if empresas != [] {
      CountsAddUp(empresas[1..]);
    }
  }

  datatype Stats = Stats(total: nat, pendentes: nat, aprovadas: nat)

  /** A status is counted at least once exactly when some company has it. */
  lemma {:induction false} CountStatusPositiveIff(empresas: seq<Empresa>, st: StatusAprovacao)
    ensures CountStatus(empresas, st) > 0 <==> exists i :: 0 <= i < |empresas| && empresas[i].statusAprovacao == st
  {
    if empresas != [] {
      CountStatusPositiveIff(empresas[1..], st);
      if CountStatus(empresas[1..], st) > 0 {
        var i :| 0 <= i < |empresas[1..]| && empresas[1..][i].statusAprovacao == st;
        assert empresas[i + 1].statusAprovacao == st;
      }
      if exists i :: 0 <= i < |empresas| && empresas[i].statusAprovacao == st {
        var i :| 0 <= i < |empresas| && empresas[i].statusAprovacao == st;
        if i > 0 {
          assert empresas[1..][i - 1].statusAprovacao == st;
        }
      }
    }
  }

  /** Counting over a concatenation adds the counts of the parts. */
  lemma {:induction false} CountStatusConcat(a: seq<Empresa>, b: seq<Empresa>, st: StatusAprovacao)
    ensures CountStatus(a + b, st) == CountStatus(a, st) + CountStatus(b, st)
  {
    if a == [] {
      assert a + b == b;
    } else {
      assert (a + b)[0] == a[0] && (a + b)[1..] == a[1..] + b;
      CountStatusConcat(a[1..], b, st);
    }
  }

  /** `stats`: the total and the pending and approved counts, which never exceed it together. */
  function ComputeStats(empresas: seq<Empresa>): (r: Stats)
    ensures r.total == |empresas|
    ensures r.pendentes == CountStatus(empresas, Pendente) && r.aprovadas == CountStatus(empresas, Aprovada)
    ensures r.pendentes + r.aprovadas <= r.total
    ensures r.pendentes + r.aprovadas == r.total <==> CountStatus(empresas, Reprovada) == 0
  {
    CountsAddUp(empresas);
    Stats(|empresas|, CountStatus(empresas, Pendente), CountStatus(empresas, Aprovada))
  }
}
