/**
  The Star Wars characters page: a paged list fetched from the API, with
  Previous/Next buttons (ten characters per API page) and the loading and
  error state of a fetch.
 */
module ParallelApi {
  import opened Base

  /** Characters per API page, as assumed by the Next button. */
  const PageSize: nat := 10

  /** One character row; the remaining fields are only displayed. */
  datatype Character = Character(name: string, height: string, mass: string, films: seq<string>)

  /** The page's state. */
  datatype HeroesPage = HeroesPage(
    data: seq<Character>,
    loading: bool,
    error: Option<string>,
    currentPage: int,
    totalCount: int)

  /** As mounted: no data, loading, no error, page 1, count 0. */
  const Initial: HeroesPage := HeroesPage([], true, None, 1, 0)

  /** The Previous button's state update. */
  function Previous(page: int): (r: int)
    ensures r >= 1
    ensures page > 1 ==> r == page - 1
    ensures page <= 1 ==> r == 1
  {
    if page - 1 > 1 then page - 1 else 1
  }

  /** The Previous button is disabled on page 1. */
  predicate PreviousDisabled(page: int) {
    page == 1
  }

  /** The Next button's state update: advance only while the count says a
      further page exists. */
  function Next(page: int, totalCount: int): (r: int)
    ensures page * PageSize < totalCount ==> r == page + 1
    ensures page * PageSize >= totalCount ==> r == page
  {
    if page * PageSize < totalCount then page + 1 else page
  }

  /** The last page the count allows, and at least 1: max(1, ceil(count / 10)). */
  function LastPage(totalCount: nat): (r: nat)
    ensures r >= 1
    ensures (r - 1) * PageSize < totalCount || r == 1
    ensures totalCount <= r * PageSize
  {
    if totalCount == 0 then 1 else (totalCount + PageSize - 1) / PageSize
  }

  /** On valid pages, the disabled Previous button is exactly the one that
      would not change the page. */
  lemma PreviousDisabledIffNoOp(page: int)
    requires page >= 1
    ensures PreviousDisabled(page) <==> Previous(page) == page
  {
  }

  /** Next stops exactly at the last page. */
  lemma NextStopsAtLastPage(page: int, totalCount: nat)
    requires page >= 1
    ensures Next(page, totalCount) == page <==> page >= LastPage(totalCount)
  {
    var last := LastPage(totalCount);
    if page >= last {
      assert page * PageSize >= last * PageSize;
    } else {
      assert page <= last - 1;
      assert page * PageSize <= (last - 1) * PageSize;
    }
  }

  datatype Button = PreviousButton | NextButton

  /** Pressing the buttons in order, with the count fixed. */
  function Navigate(page: int, totalCount: int, presses: seq<Button>): (r: int)
    ensures |presses| == 0 ==> r == page
    ensures page >= 1 ==> r >= 1
    decreases |presses|
  {
    if |presses| == 0 then page
    else
      var next := match presses[0]
        case PreviousButton => Previous(page)
        case NextButton => Next(page, totalCount);
      Navigate(next, totalCount, presses[1..])
  }

  /** From a valid page, no sequence of presses leaves 1 .. LastPage. */
  lemma {:induction false} NavigationStaysInRange(page: int, totalCount: nat, presses: seq<Button>)
    requires 1 <= page <= LastPage(totalCount)
    ensures 1 <= Navigate(page, totalCount, presses) <= LastPage(totalCount)
    decreases |presses|
  {
    if |presses| > 0 {
      var next := if presses[0].PreviousButton? then Previous(page) else Next(page, totalCount);
      if presses[0].NextButton? && page * PageSize < totalCount {
        NextStopsAtLastPage(page, totalCount);
      }
      NavigationStaysInRange(next, totalCount, presses[1..]);
    }
  }

  /** Starting from the page the component mounts on. */
  lemma PagesFromStartInRange(totalCount: nat, presses: seq<Button>)
    ensures 1 <= Navigate(Initial.currentPage, totalCount, presses) <= LastPage(totalCount)
  {
    NavigationStaysInRange(Initial.currentPage, totalCount, presses);
  }

  /** Before any fetch has set the count, no press moves away from page 1. */
  lemma {:induction false} NoCountStaysOnFirstPage(presses: seq<Button>)
    ensures Navigate(Initial.currentPage, Initial.totalCount, presses) == Initial.currentPage
    decreases |presses|
  {
    if |presses| > 0 {
      NoCountStaysOnFirstPage(presses[1..]);
    }
  }

  /** Pressing Next k times from a valid page reaches that page + k, capped at the last page. */
  lemma {:induction false} NextReachesLastPage(page: int, totalCount: nat, k: nat)
    requires 1 <= page <= LastPage(totalCount)
    ensures Navigate(page, totalCount, seq(k, _ => NextButton))
            == if page + k <= LastPage(totalCount) then page + k else LastPage(totalCount)
    decreases k
  {
    if k > 0 {
      var presses := seq(k, _ => NextButton);
      assert presses[1..] == seq(k - 1, _ => NextButton);
      NextStopsAtLastPage(page, totalCount);
      NextReachesLastPage(Next(page, totalCount), totalCount, k - 1);
    }
  }

  /** What the API answered: a page of characters and the total count, or an
      error (non-ok status or network failure) with its message. */
  datatype FetchResult = Fetched(results: seq<Character>, count: nat) | FetchFailed(message: string)

  /** `fetchSuperHeros`: loading on, then the outcome applied, then loading off. */
  function FetchSuperHeroes(s: HeroesPage, outcome: FetchResult): (r: HeroesPage)
    ensures !r.loading
    ensures r.currentPage == s.currentPage
    ensures outcome.Fetched? ==>
              r.data == outcome.results && r.totalCount == outcome.count && r.error == s.error
    ensures outcome.FetchFailed? ==>
              r.error == Some(outcome.message) && r.data == s.data && r.totalCount == s.totalCount
  {
    var started := s.(loading := true);
    var settled := match outcome
      case Fetched(results, count) => started.(data := results, totalCount := count)
      case FetchFailed(message) => started.(error := Some(message));
    settled.(loading := false)
  }

  /** A button press on the page: only the page number moves. */
  function Press(s: HeroesPage, b: Button): (r: HeroesPage)
    ensures r.data == s.data && r.totalCount == s.totalCount && r.error == s.error && r.loading == s.loading
    ensures s.currentPage >= 1 ==> r.currentPage >= 1
  {
    match b
    case PreviousButton => s.(currentPage := Previous(s.currentPage))
    case NextButton => s.(currentPage := Next(s.currentPage, s.totalCount))
  }

  /** A successful fetch does not clear an earlier error message. */
  lemma ErrorSurvivesLaterSuccess(s: HeroesPage, message: string, results: seq<Character>, count: nat)
    ensures FetchSuperHeroes(FetchSuperHeroes(s, FetchFailed(message)), Fetched(results, count)).error
            == Some(message)
  {
  }
}
