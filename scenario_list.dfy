/** The scenario list page (src/app/scenarios/page.tsx): the custom catalog
    shown six to a page with Previous/Next controls, and the "Suggest a
    Scenario" form whose Send, Close and Cancel buttons update four state
    variables. */
module ScenarioList {
  import opened Strings
  import CustomCatalog

  /** `SCENARIOS_PER_PAGE`. */
  const PageSize: nat := 6

  function Min(a: int, b: int): int {
    if a <= b then a else b
  }

  /** `Math.ceil(n / SCENARIOS_PER_PAGE)`: the fewest pages of six that hold `n` items. */
  function TotalPages(n: nat): (t: nat)
    ensures n <= t * PageSize
    ensures t > 0 ==> (t - 1) * PageSize < n
  {
    (n + PageSize - 1) / PageSize
  }

  /** Where `Array.prototype.slice` reads a bound `k` of a list of length `n`:
      a negative bound counts from the end, and every bound is clamped to [0, n]. */
  function SliceIndex(k: int, n: nat): (r: nat)
    ensures r <= n
    ensures 0 <= k ==> r == Min(k, n)
  {
    if k < 0 then (if n + k < 0 then 0 else n + k)
    else if k > n then n
    else k
  }

  /** `xs.slice(start, end)`. */
  function JsSlice<T>(xs: seq<T>, start: int, end: int): seq<T> {
    var a := SliceIndex(start, |xs|);
    var b := SliceIndex(end, |xs|);
    if a < b then xs[a..b] else []
  }

  /** `paginatedScenarios` for page `p`: the items at positions `(p-1)*6` up
      to `p*6`, clipped to the list, so at most six, in list order; a page
      holds something exactly when it is one of the pages 1..totalPages. */
  function PageItems<T>(items: seq<T>, p: int): (r: seq<T>)
    ensures |r| <= PageSize
    ensures p >= 1 ==> r == items[Min((p - 1) * PageSize, |items|)..Min(p * PageSize, |items|)]
    ensures p >= 1 ==> (r != [] <==> p <= TotalPages(|items|))
  {
    JsSlice(items, (p - 1) * PageSize, p * PageSize)
  }

  /** Pages 1..k one after the other. */
  function PagesUpTo<T>(items: seq<T>, k: nat): seq<T> {
    if k == 0 then [] else PagesUpTo(items, k - 1) + PageItems(items, k)
  }

  /** The first k pages together are the first `min(6k, n)` items. */
  lemma {:induction false} PagesPrefix<T>(items: seq<T>, k: nat)
    ensures PagesUpTo(items, k) == items[..Min(k * PageSize, |items|)]
  {
    if k > 0 {
      PagesPrefix(items, k - 1);
      var a := Min((k - 1) * PageSize, |items|);
      var b := Min(k * PageSize, |items|);
      assert items[..a] + items[a..b] == items[..b];
    }
  }

  /** The pages 1..totalPages, one after the other, are the whole list: every
      item is shown on exactly one page, in list order. */
  lemma PagesCoverList<T>(items: seq<T>)
    ensures PagesUpTo(items, TotalPages(|items|)) == items
  {
    PagesPrefix(items, TotalPages(|items|));
    assert items[..|items|] == items;
  }

  /** The fourteen custom scenarios make three pages: six, six and two. */
  lemma CatalogPages()
    ensures TotalPages(|CustomCatalog.Scenarios|) == 3
    ensures |PageItems(CustomCatalog.Scenarios, 1)| == 6 && |PageItems(CustomCatalog.Scenarios, 2)| == 6
    ensures PageItems(CustomCatalog.Scenarios, 3) == CustomCatalog.Scenarios[12..]
  {
    CustomCatalog.KeysAreIds();
  }

  /** The page's state: `page`, and the suggestion form's `showSuggestModal`,
      `suggestText`, `sending` and `sent`. `totalPages` is fixed by the catalog size. */
  class ScenarioListPage {
    const totalPages: nat
    var page: int
    var showSuggestModal: bool
    var suggestText: string
    var sending: bool
    var sent: bool

    /** The page stays within 1..totalPages (at 1 when there are no pages);
        a sent form holds no text, and a form being sent has not been sent. */
    ghost predicate Valid()
      reads this
    {
      && 1 <= page
      && (totalPages >= 1 ==> page <= totalPages)
      && (sent ==> suggestText == "")
      && (sending ==> !sent)
    }

    /** The initial `useState` values, for a list of `count` scenarios. */
    constructor (count: nat)
      ensures Valid()
      ensures totalPages == TotalPages(count) && page == 1
      ensures !showSuggestModal && suggestText == "" && !sending && !sent
    {
      totalPages := TotalPages(count);
      page := 1;
      showSuggestModal := false;
      suggestText := "";
      sending := false;
      sent := false;
    }

    /** Previous: rendered only when there is more than one page, disabled on page 1. */
    method PreviousPage() returns (taken: bool)
      requires Valid()
      modifies this
      ensures Valid()
      ensures taken <==> totalPages > 1 && old(page) != 1
      ensures page == if taken then old(page) - 1 else old(page)
      ensures showSuggestModal == old(showSuggestModal) && suggestText == old(suggestText)
      ensures sending == old(sending) && sent == old(sent)
    {
      taken := totalPages > 1 && page != 1;
      if taken {
        page := page - 1;
      }
    }

    /** Next: rendered only when there is more than one page, disabled on the last. */
    method NextPage() returns (taken: bool)
      requires Valid()
      modifies this
      ensures Valid()
      ensures taken <==> totalPages > 1 && old(page) != totalPages
      ensures page == if taken then old(page) + 1 else old(page)
      ensures showSuggestModal == old(showSuggestModal) && suggestText == old(suggestText)
      ensures sending == old(sending) && sent == old(sent)
    {
      taken := totalPages > 1 && page != totalPages;
      if taken {
        page := page + 1;
      }
    }

    /** "Suggest a Scenario" opens the form, whatever its other state. */
    method OpenSuggest()
      requires Valid()
      modifies this
      ensures Valid()
      ensures showSuggestModal
      ensures page == old(page) && suggestText == old(suggestText) && sending == old(sending) && sent == old(sent)
    {
      showSuggestModal := true;
    }

    /** Typing in the text area, which is shown only before the suggestion is
        sent and is disabled while sending. */
    method EditText(text: string) returns (taken: bool)
      requires Valid()
      modifies this
      ensures Valid()
      ensures taken <==> old(showSuggestModal) && !old(sent) && !old(sending)
      ensures suggestText == if taken then text else old(suggestText)
      ensures page == old(page) && showSuggestModal == old(showSuggestModal)
      ensures sending == old(sending) && sent == old(sent)
    {
      taken := showSuggestModal && !sent && !sending;
      if taken {
        suggestText := text;
      }
    }

    /** Send to Team, up to the request: disabled while sending or while the
        text is blank after `trim()`. */
    method StartSend() returns (taken: bool)
      requires Valid()
      modifies this
      ensures Valid()
      ensures taken <==> old(showSuggestModal) && !old(sent) && !old(sending) && Trim(Js, old(suggestText)) != []
      ensures sending == (old(sending) || taken)
      ensures page == old(page) && showSuggestModal == old(showSuggestModal)
      ensures suggestText == old(suggestText) && sent == old(sent)
    {
      taken := showSuggestModal && !sent && !sending && Trim(Js, suggestText) != [];
      if taken {
        sending := true;
      }
    }

    /** The request resolves: `sending` drops, `sent` is set and the text is
        cleared, whether or not the form was closed in the meantime. */
    method CompleteSend() returns (taken: bool)
      requires Valid()
      modifies this
      ensures Valid()
      ensures taken <==> old(sending)
      ensures taken ==> !sending && sent && suggestText == ""
      ensures !taken ==> sending == old(sending) && sent == old(sent) && suggestText == old(suggestText)
      ensures page == old(page) && showSuggestModal == old(showSuggestModal)
    {
      taken := sending;
      if taken {
        sending := false;
        sent := true;
        suggestText := "";
      }
    }

    /** The × button: closes the form and resets `sent` and the text; it is
        not disabled while sending. */
    method Close() returns (taken: bool)
      requires Valid()
      modifies this
      ensures Valid()
      ensures taken <==> old(showSuggestModal)
      ensures taken ==> !showSuggestModal && !sent && suggestText == ""
      ensures !taken ==> showSuggestModal == old(showSuggestModal) && sent == old(sent) && suggestText == old(suggestText)
      ensures page == old(page) && sending == old(sending)
    {
      taken := showSuggestModal;
      if taken {
        showSuggestModal := false;
        sent := false;
        suggestText := "";
      }
    }

    /** Cancel: shown only before the suggestion is sent, disabled while
        sending; resets like the × button. */
    method Cancel() returns (taken: bool)
      requires Valid()
      modifies this
      ensures Valid()
      ensures taken <==> old(showSuggestModal) && !old(sent) && !old(sending)
      ensures taken ==> !showSuggestModal && !sent && suggestText == ""
      ensures !taken ==> showSuggestModal == old(showSuggestModal) && sent == old(sent) && suggestText == old(suggestText)
      ensures page == old(page) && sending == old(sending)
    {
      taken := showSuggestModal && !sent && !sending;
      if taken {
        showSuggestModal := false;
        sent := false;
        suggestText := "";
      }
    }
  }
}
