/** The government-policies section of the navigation page: the country
    list offered in the filter (deduplicated, behind an "All Countries"
    entry), the query the two filters build, and the loading state kept
    around the policy fetch. The database is an outcome passed in. */
module GovernmentPolicies {
  import opened Text

  const AllCountries := "All Countries"
  const AllTypes := "All Types"
  const ErrLoad := "Failed to load policies. Please try again."

  const PolicyTypes: seq<string> := [
    "All Types",
    "Financial Support",
    "Reskilling / Education",
    "Welfare / Social Safety Nets",
    "AI & Automation Policies"]

  /** A row of government_policies. */
  datatype GovernmentPolicy = GovernmentPolicy(
    id: string,
    country: string,
    policyType: string,
    title: string,
    sourceUrl: string,
    aiSummary: Option<string>,
    lastVerified: string,
    createdAt: string)

  predicate NoDuplicates(xs: seq<string>) {
    forall i, j :: 0 <= i < j < |xs| ==> xs[i] != xs[j]
  }

  /** The first position of `x` in `xs`. */
  function IndexOf(xs: seq<string>, x: string): (k: nat)
    requires x in xs
    ensures k < |xs| && xs[k] == x
    ensures forall j :: 0 <= j < k ==> xs[j] != x
  {
    if xs[0] == x then 0 else 1 + IndexOf(xs[1..], x)
  }

  /** `[...new Set(xs)]`: each value once, where it first occurs. */
  function Distinct(xs: seq<string>): (r: seq<string>)
    ensures NoDuplicates(r)
    ensures forall x :: x in r <==> x in xs
  {
    if xs == [] then []
    else
      var r := Distinct(xs[..|xs| - 1]);
      var last := xs[|xs| - 1];
      assert xs == xs[..|xs| - 1] + [last];
      if last in r then r else r + [last]
  }

  /** An index that satisfies IndexOf's contract is IndexOf. */
  lemma IndexOfUnique(xs: seq<string>, x: string, k: nat)
    requires k < |xs| && xs[k] == x
    requires forall j :: 0 <= j < k ==> xs[j] != x
    ensures IndexOf(xs, x) == k
  {
  }

  /** The first position of a value does not change when more values follow. */
  lemma IndexOfPrefix(xs: seq<string>, n: nat, x: string)
    requires n <= |xs| && x in xs[..n]
    ensures IndexOf(xs[..n], x) == IndexOf(xs, x)
  {
    var k := IndexOf(xs[..n], x);
    IndexOfUnique(xs, x, k);
  }

  /** First-occurrence order: of two distinct values, the one first seen
      earlier comes earlier. */
  lemma {:induction false} DistinctOrder(xs: seq<string>, i: nat, j: nat)
    requires i < j < |Distinct(xs)|
    ensures IndexOf(xs, Distinct(xs)[i]) < IndexOf(xs, Distinct(xs)[j])
    decreases |xs|
  {
    var init := xs[..|xs| - 1];
    var last := xs[|xs| - 1];
    var r := Distinct(init);
    assert xs == init + [last];
    var d := Distinct(xs);
    assert d[i] == r[i];
    IndexOfPrefix(xs, |xs| - 1, d[i]);
    if j < |r| {
      assert d[i] == r[i] && d[j] == r[j];
      DistinctOrder(init, i, j);
      IndexOfPrefix(xs, |xs| - 1, d[j]);
    } else {
      assert d == r + [last] && d[j] == last && last !in init;
      assert IndexOf(xs, last) == |xs| - 1;
    }
  }

  /** The country list: "All Countries", then each fetched country once, in
      the order first fetched. */
  function CountryOptions(fetched: seq<string>): (options: seq<string>)
    ensures options != [] && options[0] == AllCountries
    ensures NoDuplicates(options[1..])
    ensures forall c :: c in fetched <==> c in options[1..]
  {
    [AllCountries] + Distinct(fetched)
  }

  /** The selection the two filters express. */
  predicate Selected(p: GovernmentPolicy, country: string, policyType: string) {
    (country == AllCountries || p.country == country)
    && (policyType == AllTypes || p.policyType == policyType)
  }

  /** A `.eq(column, value)` clause of the query. */
  datatype Filter = Eq(column: string, value: string)

  predicate Satisfies(p: GovernmentPolicy, query: seq<Filter>) {
    forall i :: 0 <= i < |query| ==>
      (query[i].column == "country" ==> p.country == query[i].value)
      && (query[i].column == "policy_type" ==> p.policyType == query[i].value)
  }

  /** A database answer: an error, or the rows (None when `data` is null). */
  datatype Fetched<T> = FetchError | Rows(data: Option<seq<T>>)

  function RowsOrEmpty<T>(f: Fetched<T>): seq<T>
    requires f.Rows?
  {
    if f.data.Some? then f.data.value else []
  }

  /** The first policy type is the "All Types" entry. */
  lemma FirstTypeIsAll()
    ensures PolicyTypes[0] == AllTypes
    ensures AllTypes !in PolicyTypes[1..]
  {
  }

  /** The state of GovernmentPoliciesSection. */
  class PoliciesSection {
    var policies: seq<GovernmentPolicy>
    var countries: seq<string>
    var selectedCountry: string
    var selectedType: string
    var isLoading: bool
    var error: Option<string>

    constructor ()
      ensures policies == [] && countries == []
      ensures selectedCountry == AllCountries && selectedType == AllTypes
      ensures isLoading && error.None?
    {
      policies := [];
      countries := [];
      selectedCountry := AllCountries;
      selectedType := AllTypes;
      isLoading := true;
      error := None;
    }

    /** fetchCountries: on an error the list stays as it was. */
    method LoadCountries(result: Fetched<string>)
      modifies this`countries
      ensures result.FetchError? ==> countries == old(countries)
      ensures result.Rows? ==> countries == CountryOptions(RowsOrEmpty(result))
    {
      if result.FetchError? {
        return;
      }
      countries := CountryOptions(RowsOrEmpty(result));
    }

    /** The query fetchPolicies builds: one clause per filter that is not on
        its "All" entry. */
    method Query() returns (query: seq<Filter>)
      ensures forall p :: Satisfies(p, query) <==> Selected(p, selectedCountry, selectedType)
      ensures forall i :: 0 <= i < |query| ==>
                query[i] != Eq("country", AllCountries) && query[i] != Eq("policy_type", AllTypes)
      ensures |query| <= 2
    {
      query := [];
      if selectedCountry != AllCountries {
        query := query + [Eq("country", selectedCountry)];
      }
      if selectedType != AllTypes {
        query := query + [Eq("policy_type", selectedType)];
      }
      assert |"country"| != |"policy_type"|;
      forall p ensures Satisfies(p, query) <==> Selected(p, selectedCountry, selectedType) {
        if Satisfies(p, query) && selectedCountry != AllCountries {
          assert query[0] == Eq("country", selectedCountry);
        }
        if Satisfies(p, query) && selectedType != AllTypes {
          assert query[|query| - 1] == Eq("policy_type", selectedType);
        }
      }
    }

    /** The start of fetchPolicies. */
    method StartFetch()
      modifies this`isLoading, this`error
      ensures isLoading && error.None?
    {
      isLoading := true;
      error := None;
    }

    /** The end of fetchPolicies: an error keeps the policies shown so far. */
    method FinishFetch(result: Fetched<GovernmentPolicy>)
      modifies this`policies, this`isLoading, this`error
      ensures !isLoading
      ensures result.FetchError? ==> error == Some(ErrLoad) && policies == old(policies)
      ensures result.Rows? ==> policies == RowsOrEmpty(result) && error == old(error)
    {
      if result.FetchError? {
        error := Some(ErrLoad);
        isLoading := false;
        return;
      }
      policies := RowsOrEmpty(result);
      isLoading := false;
    }

    /** fetchPolicies as a whole: the query issued, and the state after the
        database answered `result` to it. */
    method FetchPolicies(result: Fetched<GovernmentPolicy>) returns (query: seq<Filter>)
      modifies this`policies, this`isLoading, this`error
      ensures forall p :: Satisfies(p, query) <==> Selected(p, selectedCountry, selectedType)
      ensures !isLoading
      ensures result.FetchError? ==> error == Some(ErrLoad) && policies == old(policies)
      ensures result.Rows? ==> error.None? && policies == RowsOrEmpty(result)
    {
      StartFetch();
      query := Query();
      ghost var country, policyType := selectedCountry, selectedType;
      FinishFetch(result);
      assert country == selectedCountry && policyType == selectedType;
    }
  }
}
