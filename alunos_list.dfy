/**
 * The paginated student list: the effect that filters the students by search text, subject and
 * school and goes back to page 1, the page count, the slice shown on the current page and the
 * pagination buttons.
 */
module AlunosList {
  import opened Wrappers
  import opened Strings
  import opened AlunoCard

  const DEFAULT_ITEMS_PER_PAGE := 6

  /** The three filters the effect applies, one after the other. */
  datatype Criterion = Search(lowerTerm: string) | DisciplinaIs(disciplinaId: int) | EscolaIs(escolaId: int)

  /** The search keeps a student whose name, or matricula or school when present, contains the
    * lower-cased term, compared in lower case. */
  predicate MatchesSearch(a: Aluno, lowerTerm: string) {
    Includes(ToLower(a.nome), lowerTerm)
    || (Present(a.matricula) && Includes(ToLower(a.matricula.value), lowerTerm))
    || (Present(a.escola) && Includes(ToLower(a.escola.value), lowerTerm))
  }

  predicate HasDisciplina(a: Aluno, disciplinaId: int) {
    a.disciplinas.Some? && exists i :: 0 <= i < |a.disciplinas.value| && a.disciplinas.value[i].id == disciplinaId
  }

  predicate Keeps(c: Criterion, a: Aluno) {
    match c
    case Search(lowerTerm) => MatchesSearch(a, lowerTerm)
    case DisciplinaIs(id) => HasDisciplina(a, id)
    case EscolaIs(id) => a.escolaId == Some(id)
  }

  /** `xs.filter(...)`. */
  function Filter(xs: seq<Aluno>, c: Criterion): (r: seq<Aluno>)
    ensures |r| <= |xs|
  {
    if xs == [] then [] else (if Keeps(c, xs[0]) then [xs[0]] else []) + Filter(xs[1..], c)
  }

  /** a is b with some elements left out, the rest in their order. */
  predicate IsSubsequence(a: seq<Aluno>, b: seq<Aluno>)
    decreases |b|
  {
    a == [] || (b != [] && ((a[0] == b[0] && IsSubsequence(a[1..], b[1..])) || IsSubsequence(a, b[1..])))
  }

  lemma {:induction false} FilterMembers(xs: seq<Aluno>, c: Criterion, x: Aluno)
    ensures x in Filter(xs, c) <==> x in xs && Keeps(c, x)
  {
    if xs != [] {
      FilterMembers(xs[1..], c, x);
      assert xs == [xs[0]] + xs[1..];
    }
  }

  /** Every kept student appears as often as in the input, duplicates included. */
  lemma {:induction false} FilterCounts(xs: seq<Aluno>, c: Criterion, x: Aluno)
    ensures multiset(Filter(xs, c))[x] == if Keeps(c, x) then multiset(xs)[x] else 0
  {
    if xs != [] {
      var rest := Filter(xs[1..], c);
      FilterCounts(xs[1..], c, x);
      assert xs == [xs[0]] + xs[1..];
      assert multiset(xs)[x] == multiset([xs[0]])[x] + multiset(xs[1..])[x];
      if Keeps(c, xs[0]) {
        assert Filter(xs, c) == [xs[0]] + rest;
        assert multiset(Filter(xs, c))[x] == multiset([xs[0]])[x] + multiset(rest)[x];
      } else {
        assert Filter(xs, c) == rest;
      }
    }
  }

  lemma {:induction false} FilterIsSubsequence(xs: seq<Aluno>, c: Criterion)
    ensures IsSubsequence(Filter(xs, c), xs)
  {
    if xs != [] {
      FilterIsSubsequence(xs[1..], c);
      var r := Filter(xs, c);
      if Keeps(c, xs[0]) {
        assert r == [xs[0]] + Filter(xs[1..], c);
        assert r[0] == xs[0] && r[1..] == Filter(xs[1..], c);
        assert IsSubsequence(r, xs);
      } else {
        assert r == Filter(xs[1..], c);
      }
    }
  }

  lemma {:induction false} FilterKeepsAll(xs: seq<Aluno>, c: Criterion)
    requires forall i :: 0 <= i < |xs| ==> Keeps(c, xs[i])
    ensures Filter(xs, c) == xs
  {
    if xs != [] {
      FilterKeepsAll(xs[1..], c);
      assert [xs[0]] + xs[1..] == xs;
    }
  }

  lemma {:induction false} SubsequenceOfSelf(a: seq<Aluno>)
    ensures IsSubsequence(a, a)
  {
    if a != [] {
      SubsequenceOfSelf(a[1..]);
    }
  }

  lemma {:induction false} SubsequenceTransitive(a: seq<Aluno>, b: seq<Aluno>, c: seq<Aluno>)
    requires IsSubsequence(a, b) && IsSubsequence(b, c)
    ensures IsSubsequence(a, c)
    decreases |c|
  {
    if a != [] {
      if b[0] == c[0] && IsSubsequence(b[1..], c[1..]) {
        if a[0] == b[0] && IsSubsequence(a[1..], b[1..]) {
          SubsequenceTransitive(a[1..], b[1..], c[1..]);
        } else {
          SubsequenceTransitive(a, b[1..], c[1..]);
        }
      } else {
        SubsequenceTransitive(a, b, c[1..]);
      }
    }
  }

  /** What the filter effect computes from the props and the three filter states. */
  function Filtered(alunos: seq<Aluno>, searchTerm: string, disciplinaFilter: Option<int>,
                    escolaFilter: Option<int>): seq<Aluno> {
    var bySearch := if searchTerm != "" then Filter(alunos, Search(ToLower(searchTerm))) else alunos;
    var byDisciplina := if disciplinaFilter.Some? then Filter(bySearch, DisciplinaIs(disciplinaFilter.value)) else bySearch;
    if escolaFilter.Some? then Filter(byDisciplina, EscolaIs(escolaFilter.value)) else byDisciplina
  }

  /** A student is listed iff it is one of the students and passes every active filter. */
  lemma FilteredMembers(alunos: seq<Aluno>, searchTerm: string, disciplinaFilter: Option<int>,
                        escolaFilter: Option<int>, x: Aluno)
    ensures x in Filtered(alunos, searchTerm, disciplinaFilter, escolaFilter) <==>
      x in alunos
      && (searchTerm != "" ==> MatchesSearch(x, ToLower(searchTerm)))
      && (disciplinaFilter.Some? ==> HasDisciplina(x, disciplinaFilter.value))
      && (escolaFilter.Some? ==> x.escolaId == escolaFilter)
  {
    var bySearch := if searchTerm != "" then Filter(alunos, Search(ToLower(searchTerm))) else alunos;
    var byDisciplina := if disciplinaFilter.Some? then Filter(bySearch, DisciplinaIs(disciplinaFilter.value)) else bySearch;
    FilterMembers(alunos, Search(ToLower(searchTerm)), x);
    if disciplinaFilter.Some? { FilterMembers(bySearch, DisciplinaIs(disciplinaFilter.value), x); }
    if escolaFilter.Some? { FilterMembers(byDisciplina, EscolaIs(escolaFilter.value), x); }
  }

  /** The filtered list keeps the students' order, and without filters it is the whole list. */
  lemma FilteredOrder(alunos: seq<Aluno>, searchTerm: string, disciplinaFilter: Option<int>,
                      escolaFilter: Option<int>)
    ensures IsSubsequence(Filtered(alunos, searchTerm, disciplinaFilter, escolaFilter), alunos)
    ensures searchTerm == "" && disciplinaFilter.None? && escolaFilter.None? ==>
      Filtered(alunos, searchTerm, disciplinaFilter, escolaFilter) == alunos
  {
    var bySearch := if searchTerm != "" then Filter(alunos, Search(ToLower(searchTerm))) else alunos;
    var byDisciplina := if disciplinaFilter.Some? then Filter(bySearch, DisciplinaIs(disciplinaFilter.value)) else bySearch;
    var result := Filtered(alunos, searchTerm, disciplinaFilter, escolaFilter);
    SubsequenceOfSelf(alunos);
    SubsequenceOfSelf(bySearch);
    SubsequenceOfSelf(byDisciplina);
    FilterIsSubsequence(alunos, Search(ToLower(searchTerm)));
    FilterIsSubsequence(bySearch, DisciplinaIs(disciplinaFilter.GetOr(0)));
    FilterIsSubsequence(byDisciplina, EscolaIs(escolaFilter.GetOr(0)));
    assert IsSubsequence(byDisciplina, bySearch);
    assert IsSubsequence(result, byDisciplina);
    SubsequenceTransitive(byDisciplina, bySearch, alunos);
    SubsequenceTransitive(result, byDisciplina, alunos);
  }

  /** `Math.ceil(len / itemsPerPage)`. */
  function TotalPages(len: nat, itemsPerPage: nat): (pages: nat)
    requires itemsPerPage > 0
    ensures len <= pages * itemsPerPage
    ensures pages == 0 || (pages - 1) * itemsPerPage < len
    ensures pages == 0 <==> len == 0
  {
    (len + itemsPerPage - 1) / itemsPerPage
  }

  /** `Array.prototype.slice`: negative indices count from the end, all are clamped. */
  function JsSlice(xs: seq<Aluno>, start: int, end: int): (r: seq<Aluno>)
    ensures |r| <= |xs|
  {
    var from := if start < 0 then (if |xs| + start < 0 then 0 else |xs| + start) else (if start > |xs| then |xs| else start);
    var to := if end < 0 then (if |xs| + end < 0 then 0 else |xs| + end) else (if end > |xs| then |xs| else end);
    if from < to then xs[from..to] else []
  }

  function Min(a: int, b: int): int {
    if a <= b then a else b
  }

  /** The students of page p: `filteredAlunos.slice(p * n - n, p * n)`. */
  function PageItems(xs: seq<Aluno>, page: int, itemsPerPage: int): seq<Aluno> {
    JsSlice(xs, page * itemsPerPage - itemsPerPage, page * itemsPerPage)
  }

  /** From page 1 on, page p holds the items from (p-1)·n up to p·n, so at most n of them. */
  lemma PageRange(xs: seq<Aluno>, page: int, itemsPerPage: int)
    requires page >= 1 && itemsPerPage > 0
    ensures var from := Min((page - 1) * itemsPerPage, |xs|);
      PageItems(xs, page, itemsPerPage) == xs[from..Min(page * itemsPerPage, |xs|)]
    ensures |PageItems(xs, page, itemsPerPage)| <= itemsPerPage
    ensures page <= TotalPages(|xs|, itemsPerPage) ==> PageItems(xs, page, itemsPerPage) != []
  {
    assert page * itemsPerPage - itemsPerPage == (page - 1) * itemsPerPage;
    assert (page - 1) * itemsPerPage >= 0;
  }

  /** Pages 1 to k, one after the other. */
  function PagesUpTo(xs: seq<Aluno>, itemsPerPage: int, k: nat): seq<Aluno> {
    if k == 0 then [] else PagesUpTo(xs, itemsPerPage, k - 1) + PageItems(xs, k, itemsPerPage)
  }

  lemma {:induction false} PagesUpToPrefix(xs: seq<Aluno>, itemsPerPage: int, k: nat)
    requires itemsPerPage > 0
    ensures PagesUpTo(xs, itemsPerPage, k) == xs[..Min(k * itemsPerPage, |xs|)]
  {
    if k > 0 {
      PagesUpToPrefix(xs, itemsPerPage, k - 1);
      PageRange(xs, k, itemsPerPage);
      PageStart(k, itemsPerPage);
      JoinPrefix(xs, (k - 1) * itemsPerPage, itemsPerPage);
    }
  }

  lemma PageStart(k: int, n: int)
    requires k >= 1 && n > 0
    ensures (k - 1) * n >= 0 && (k - 1) * n + n == k * n
  {
  }

  /** The first m items followed by the next n are the first m + n. */
  lemma JoinPrefix(xs: seq<Aluno>, m: int, n: int)
    requires 0 <= m && 0 < n
    ensures xs[..Min(m, |xs|)] + xs[Min(m, |xs|)..Min(m + n, |xs|)] == xs[..Min(m + n, |xs|)]
  {
  }

  /** The pages, in order, are exactly the filtered list. */
  lemma PagesPartition(xs: seq<Aluno>, itemsPerPage: int)
    requires itemsPerPage > 0
    ensures PagesUpTo(xs, itemsPerPage, TotalPages(|xs|, itemsPerPage)) == xs
  {
    PagesUpToPrefix(xs, itemsPerPage, TotalPages(|xs|, itemsPerPage));
  }

  datatype PageButton = First | Prev | Item(index: nat) | Next | Last

  class AlunosListState {
    var alunos: seq<Aluno>
    var itemsPerPage: int
    var currentPage: int
    var filteredAlunos: seq<Aluno>
    var searchTerm: string
    var disciplinaFilter: Option<int>
    var escolaFilter: Option<int>

    function PageCount(): nat
      reads this
      requires itemsPerPage > 0
    {
      TotalPages(|filteredAlunos|, itemsPerPage)
    }

    /** The filtered list agrees with the filters, and the current page is a page of it (page 1
      * when there is none). */
    ghost predicate Valid()
      reads this
    {
      itemsPerPage > 0
      && filteredAlunos == Filtered(alunos, searchTerm, disciplinaFilter, escolaFilter)
      && 1 <= currentPage && (currentPage == 1 || currentPage <= PageCount())
    }

    /** The first render, once the filter effect has run: every student, page 1. */
    constructor (students: seq<Aluno>, perPage: int)
      requires perPage > 0
      ensures Valid() && alunos == students && itemsPerPage == perPage
      ensures filteredAlunos == students && currentPage == 1
      ensures searchTerm == "" && disciplinaFilter.None? && escolaFilter.None?
    {
      alunos := students;
      itemsPerPage := perPage;
      searchTerm := "";
      disciplinaFilter, escolaFilter := None, None;
      filteredAlunos := [];
      currentPage := 1;
      new;
      RunFilterEffect();
      FilteredOrder(students, "", None, None);
    }

    /** The filter effect: search, then subject, then school, then back to page 1. */
    method RunFilterEffect()
      modifies this
      requires itemsPerPage > 0
      ensures filteredAlunos == Filtered(alunos, searchTerm, disciplinaFilter, escolaFilter)
      ensures currentPage == 1 && Valid()
      ensures alunos == old(alunos) && itemsPerPage == old(itemsPerPage) && searchTerm == old(searchTerm)
      ensures disciplinaFilter == old(disciplinaFilter) && escolaFilter == old(escolaFilter)
    {
      var result := alunos;
      if searchTerm != "" {
        var lowerSearchTerm := ToLower(searchTerm);
        result := Filter(result, Search(lowerSearchTerm));
      }
      if disciplinaFilter.Some? {
        result := Filter(result, DisciplinaIs(disciplinaFilter.value));
      }
      if escolaFilter.Some? {
        result := Filter(result, EscolaIs(escolaFilter.value));
      }
      filteredAlunos := result;
      currentPage := 1;
    }

    /** New students from the parent re-run the effect. */
    method SetAlunos(students: seq<Aluno>)
      modifies this
      requires Valid()
      ensures Valid() && alunos == students && currentPage == 1
      ensures searchTerm == old(searchTerm) && disciplinaFilter == old(disciplinaFilter)
      ensures escolaFilter == old(escolaFilter) && itemsPerPage == old(itemsPerPage)
    {
      alunos := students;
      RunFilterEffect();
    }

    method HandleSearch(term: string)
      modifies this
      requires Valid()
      ensures Valid() && searchTerm == term && currentPage == 1
      ensures alunos == old(alunos) && disciplinaFilter == old(disciplinaFilter)
      ensures escolaFilter == old(escolaFilter) && itemsPerPage == old(itemsPerPage)
    {
      searchTerm := term;
      RunFilterEffect();
    }

    method HandleFilterByDisciplina(disciplinaId: Option<int>)
      modifies this
      requires Valid()
      ensures Valid() && disciplinaFilter == disciplinaId && currentPage == 1
      ensures alunos == old(alunos) && searchTerm == old(searchTerm)
      ensures escolaFilter == old(escolaFilter) && itemsPerPage == old(itemsPerPage)
    {
      disciplinaFilter := disciplinaId;
      RunFilterEffect();
    }

    method HandleFilterByEscola(escolaId: Option<int>)
      modifies this
      requires Valid()
      ensures Valid() && escolaFilter == escolaId && currentPage == 1
      ensures alunos == old(alunos) && searchTerm == old(searchTerm)
      ensures disciplinaFilter == old(disciplinaFilter) && itemsPerPage == old(itemsPerPage)
    {
      escolaFilter := escolaId;
      RunFilterEffect();
    }

    /** The students the grid shows. */
    function CurrentAlunos(): (page: seq<Aluno>)
      reads this
      requires Valid()
      ensures |page| <= itemsPerPage
      ensures filteredAlunos != [] ==> page != []
    {
      PageRange(filteredAlunos, currentPage, itemsPerPage);
      PageItems(filteredAlunos, currentPage, itemsPerPage)
    }

    /** First and Prev are disabled on page 1, Next and Last on the last page. */
    function Disabled(b: PageButton): (disabled: bool)
      reads this
      requires itemsPerPage > 0
      ensures (b == First || b == Prev) ==> (disabled <==> currentPage == 1)
      ensures (b == Next || b == Last) ==> (disabled <==> currentPage == PageCount())
      ensures b.Item? ==> !disabled
    {
      match b
      case First => currentPage == 1
      case Prev => currentPage == 1
      case Next => currentPage == PageCount()
      case Last => currentPage == PageCount()
      case Item(_) => false
    }

    /**
     * A click on a pagination button. The buttons exist only when the list is not empty, a
     * disabled one does nothing, and the page stays a page of the list.
     */
    method Click(b: PageButton)
      modifies this
      requires Valid()
      requires b.Item? ==> b.index < PageCount()
      ensures Valid()
      ensures filteredAlunos == [] || old(Disabled(b)) ==> currentPage == old(currentPage)
      ensures filteredAlunos != [] && !old(Disabled(b)) ==>
        currentPage == match b
          case First => 1
          case Prev => old(currentPage) - 1
          case Item(i) => i + 1
          case Next => old(currentPage) + 1
          case Last => PageCount()
      ensures alunos == old(alunos) && filteredAlunos == old(filteredAlunos) && searchTerm == old(searchTerm)
      ensures disciplinaFilter == old(disciplinaFilter) && escolaFilter == old(escolaFilter)
      ensures itemsPerPage == old(itemsPerPage)
    {
      if filteredAlunos == [] || Disabled(b) {
        return;
      }
      var page := match b
        case First => 1
        case Prev => currentPage - 1
        case Item(i) => i + 1
        case Next => currentPage + 1
        case Last => PageCount();
      currentPage := page;
    }
  }
}
