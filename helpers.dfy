/** Pagination and list parameters parsed from a request's query string
    (internal/handler/helpers.go). A query maps each parameter name to its first value, which
    is what `r.URL.Query().Get` returns; an absent parameter reads as "". */
module Query {
  import opened Pagination
  import opened Primitive

  type QueryValues = map<string, string>

  const DefaultPage: int := 1
  const DefaultLimit: int := 20
  const MaxLimit: int := 100

  const MinInt64: int := -0x8000_0000_0000_0000
  const MaxInt64: int := 0x7fff_ffff_ffff_ffff

  /** url.Values.Get. */
  function Get(q: QueryValues, key: string): string {
    if key in q then q[key] else ""
  }

  // ---------------------------------------------------------------------------
  // strconv.Atoi on a 64-bit platform
  // ---------------------------------------------------------------------------

  predicate IsDecimal(s: string) {
    |s| > 0 && forall i :: 0 <= i < |s| ==> '0' <= s[i] <= '9'
  }

  /** The value of a string of decimal digits, most significant first. */
  function DigitsValue(s: string): (n: nat)
    requires forall i :: 0 <= i < |s| ==> '0' <= s[i] <= '9'
  {
    if s == [] then 0 else DigitsValue(s[..|s| - 1]) * 10 + ((s[|s| - 1] as int) - ('0' as int))
  }

  /** strconv.Atoi: an optional '+' or '-', then one or more decimal digits (leading zeros
      allowed, no underscores, no white space), whose value must fit in an int64; anything
      else is an error, here None. */
  function Atoi(s: string): (r: Option<int>)
    ensures r.Some? ==> MinInt64 <= r.value <= MaxInt64
    ensures r.Some? ==> (exists i :: 0 <= i < |s| && '0' <= s[i] <= '9')
    ensures r.Some? && r.value < 0 ==> s[0] == '-'
  {
    var signed := |s| > 0 && (s[0] == '+' || s[0] == '-');
    var digits := if signed then s[1..] else s;
    if !IsDecimal(digits) then None
    else
      var magnitude: int := DigitsValue(digits);
      var v := if signed && s[0] == '-' then -magnitude else magnitude;
      if MinInt64 <= v <= MaxInt64 then Some(v) else None
  }

  /** The decimal form of a natural number, as strconv.Itoa writes it. */
  function FormatNat(n: nat): (s: string)
    ensures IsDecimal(s)
    decreases n
  {
    if n < 10 then [(('0' as int) + n) as char] else FormatNat(n / 10) + [(('0' as int) + n % 10) as char]
  }

  lemma {:induction false} DigitsValueFormat(n: nat)
    ensures DigitsValue(FormatNat(n)) == n
    decreases n
  {
    var s := FormatNat(n);
    if n >= 10 {
      DigitsValueFormat(n / 10);
      assert s[..|s| - 1] == FormatNat(n / 10);
    }
  }

  /** Atoi reads back every non-negative int64 written in decimal. */
  lemma AtoiFormatNat(n: nat)
    requires n <= MaxInt64
    ensures Atoi(FormatNat(n)) == Some(n)
  {
    DigitsValueFormat(n);
  }

  /** Atoi of a minus sign and a decimal form is the negative number. */
  lemma AtoiFormatNegative(n: nat)
    requires n <= MaxInt64 + 1
    ensures Atoi("-" + FormatNat(n)) == Some(-(n as int))
  {
    DigitsValueFormat(n);
    assert ("-" + FormatNat(n))[1..] == FormatNat(n);
  }

  // ---------------------------------------------------------------------------
  // ParsePaginationParams
  // ---------------------------------------------------------------------------

  /** The value a parameter overrides its default with: one that parses as a positive int. */
  function PositiveInt(s: string): (r: Option<int>)
    ensures r.Some? <==> s != "" && Atoi(s).Some? && Atoi(s).value > 0
    ensures r.Some? ==> r == Atoi(s) && r.value >= 1
  {
    if s != "" then
      match Atoi(s)
      case Some(v) => if v > 0 then Some(v) else None
      case None => None
    else None
  }

  /** Page 1 and limit 20 unless the query gives a positive integer; a limit above 100 is
      cut to 100. */
  function ParsePaginationParams(q: QueryValues): (p: PaginationParams)
    ensures p.page >= 1 && 1 <= p.limit <= MaxLimit
    ensures PositiveInt(Get(q, "page")).None? ==> p.page == DefaultPage
    ensures PositiveInt(Get(q, "page")).Some? ==> p.page == PositiveInt(Get(q, "page")).value
    ensures PositiveInt(Get(q, "limit")).None? ==> p.limit == DefaultLimit
    ensures PositiveInt(Get(q, "limit")).Some? ==> p.limit == Min(PositiveInt(Get(q, "limit")).value, MaxLimit)
  {
    var page := match PositiveInt(Get(q, "page")) case Some(v) => v case None => DefaultPage;
    var limit := match PositiveInt(Get(q, "limit")) case Some(v) => (if v > MaxLimit then MaxLimit else v)
                                                     case None => DefaultLimit;
    PaginationParams(page, limit)
  }

  /** A page written in decimal is the page parsed. */
  lemma PageRoundTrip(q: QueryValues, n: nat)
    requires 1 <= n <= MaxInt64
    ensures ParsePaginationParams(q["page" := FormatNat(n)]).page == n
  {
    AtoiFormatNat(n);
    assert Get(q["page" := FormatNat(n)], "page") == FormatNat(n);
  }

  /** A limit written in decimal is the limit parsed, capped at 100. */
  lemma LimitRoundTrip(q: QueryValues, n: nat)
    requires 1 <= n <= MaxInt64
    ensures ParsePaginationParams(q["limit" := FormatNat(n)]).limit == Min(n, MaxLimit)
  {
    AtoiFormatNat(n);
    assert Get(q["limit" := FormatNat(n)], "limit") == FormatNat(n);
  }

  /** Zero and negative values are ignored, not clamped: page and limit stay at their
      defaults. */
  lemma NonPositiveIgnored(q: QueryValues, n: nat)
    requires n <= MaxInt64
    ensures ParsePaginationParams(q["page" := "-" + FormatNat(n)]).page == DefaultPage
    ensures ParsePaginationParams(q["limit" := "-" + FormatNat(n)]).limit == DefaultLimit
    ensures ParsePaginationParams(q["page" := "0"]).page == DefaultPage
    ensures ParsePaginationParams(q["limit" := "0"]).limit == DefaultLimit
  {
    AtoiFormatNegative(n);
    assert Get(q["page" := "-" + FormatNat(n)], "page") == "-" + FormatNat(n);
    assert Get(q["limit" := "-" + FormatNat(n)], "limit") == "-" + FormatNat(n);
    assert DigitsValue("0") == 0;
  }

  // ---------------------------------------------------------------------------
  // ParseListParams
  // ---------------------------------------------------------------------------

  /** "asc" for "asc" or "ascending", "desc" for anything else. */
  function NormalizeOrder(order: string): (r: string)
    ensures r == "asc" || r == "desc"
    ensures r == "asc" <==> order == "asc" || order == "ascending"
  {
    if order == "asc" || order == "ascending" then "asc" else "desc"
  }

  /** The pagination as ParsePaginationParams gives it; search and name copied verbatim;
      sort copied without validation, "created_at" when absent; order normalised. */
  function ParseListParams(q: QueryValues): (p: ListParams)
    ensures p.pagination == ParsePaginationParams(q)
    ensures p.search == Get(q, "search") && p.name == Get(q, "name")
    ensures Get(q, "sort") != "" ==> p.sort == Get(q, "sort")
    ensures Get(q, "sort") == "" ==> p.sort == "created_at"
    ensures p.order == "asc" <==> Get(q, "order") == "asc" || Get(q, "order") == "ascending"
    ensures p.order == "asc" || p.order == "desc"
  {
    var search := Get(q, "search");
    var name := Get(q, "name");
    var sort := Get(q, "sort");
    var order := Get(q, "order");
    ListParams(if search != "" then search else "",
               if name != "" then name else "",
               if sort != "" then sort else "created_at",
               if order != "" then NormalizeOrder(order) else "desc",
               ParsePaginationParams(q))
  }

  /** With no query at all the list parameters are the domain defaults. */
  lemma EmptyQueryDefaults()
    ensures ParseListParams(map[]) == DefaultListParams()
  {
  }
}
