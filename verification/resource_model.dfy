/**
 * The stored resource document and the schema's rules: the three enums, the
 * trimmed and length-bounded strings, the at-most-ten tags, the conditional
 * price rule, vote counters defaulting to zero, and the `voteCount` virtual.
 */
module ResourceSchema {
  import opened Wrappers
  import opened Text

  datatype Difficulty = Beginner | Intermediate | Advanced
  datatype Status = Pending | Approved | Rejected
  datatype Pricing = Free | Paid

  function DifficultyName(d: Difficulty): string {
    match d
    case Beginner => "beginner"
    case Intermediate => "intermediate"
    case Advanced => "advanced"
  }

  function StatusName(s: Status): string {
    match s
    case Pending => "pending"
    case Approved => "approved"
    case Rejected => "rejected"
  }

  function PricingName(p: Pricing): string {
    match p
    case Free => "free"
    case Paid => "paid"
  }

  /** The enum check of the `difficulty` path: only the three listed strings are accepted. */
  function ParseDifficulty(s: string): (r: Option<Difficulty>)
    ensures r.Some? ==> DifficultyName(r.value) == s
    ensures r.None? ==> forall d: Difficulty :: DifficultyName(d) != s
  {
    if s == "beginner" then Some(Beginner)
    else if s == "intermediate" then Some(Intermediate)
    else if s == "advanced" then Some(Advanced)
    else None
  }

  /** The enum check of the `status` path. */
  function ParseStatus(s: string): (r: Option<Status>)
    ensures r.Some? ==> StatusName(r.value) == s
    ensures r.None? ==> forall t: Status :: StatusName(t) != s
  {
    if s == "pending" then Some(Pending)
    else if s == "approved" then Some(Approved)
    else if s == "rejected" then Some(Rejected)
    else None
  }

  /** The enum check of the `pricingType` path. */
  function ParsePricing(s: string): (r: Option<Pricing>)
    ensures r.Some? ==> PricingName(r.value) == s
    ensures r.None? ==> forall p: Pricing :: PricingName(p) != s
  {
    if s == "free" then Some(Free)
    else if s == "paid" then Some(Paid)
    else None
  }

  /** Each enum value is accepted back as itself. */
  lemma EnumNamesRoundTrip(d: Difficulty, s: Status, p: Pricing)
    ensures ParseDifficulty(DifficultyName(d)) == Some(d)
    ensures ParseStatus(StatusName(s)) == Some(s)
    ensures ParsePricing(PricingName(p)) == Some(p)
  {
  }

  datatype Votes = Votes(upvotes: nat, downvotes: nat)

  /** A stored resource. `rtype` is the `type` reference; ids are opaque strings. */
  datatype Resource = Resource(
    name: string,
    description: string,
    url: string,
    category: string,
    rtype: string,
    difficulty: Difficulty,
    tags: seq<string>,
    status: Status,
    createdBy: string,
    pricingType: Pricing,
    price: Option<real>,
    votes: Votes)

  const MaxNameLength: nat := 100
  const MaxDescriptionLength: nat := 2000
  const MaxTags: nat := 10

  /** The price validators: never negative, and required and positive when paid. */
  predicate PriceRule(pricing: Pricing, price: Option<real>) {
    && (price.Some? ==> price.value >= 0.0)
    && (pricing == Paid ==> price.Some? && price.value > 0.0)
  }

  /** Everything the schema guarantees of a document it accepted. */
  predicate ValidResource(r: Resource) {
    && IsTrimmed(r.name) && 0 < JsLength(r.name) <= MaxNameLength
    && IsTrimmed(r.description) && 0 < JsLength(r.description) <= MaxDescriptionLength
    && IsTrimmed(r.url) && r.url != ""
    && r.category != "" && r.rtype != "" && r.createdBy != ""
    && |r.tags| <= MaxTags
    && PriceRule(r.pricingType, r.price)
  }

  /** The document handed to `create`, before casting and validation. */
  datatype Draft = Draft(
    name: string,
    description: string,
    url: string,
    category: string,
    rtype: string,
    difficulty: string,
    tags: seq<string>,
    status: Option<string>,
    createdBy: string,
    pricingType: string,
    price: Option<real>,
    votes: Votes)

  /**
   * Casting and validation of a draft: trim the trimmed paths, check the enums
   * (status defaulting to pending), then the required, length, tag-count and
   * price validators. `None` is a validation error.
   */
  function Validate(d: Draft): (r: Option<Resource>)
    ensures r.Some? ==> ValidResource(r.value)
    ensures r.Some? ==>
      && r.value.name == Trim(d.name) && r.value.description == Trim(d.description)
      && r.value.url == Trim(d.url) && r.value.category == d.category && r.value.rtype == d.rtype
      && DifficultyName(r.value.difficulty) == d.difficulty
      && StatusName(r.value.status) == d.status.GetOr("pending")
      && PricingName(r.value.pricingType) == d.pricingType
      && r.value.tags == d.tags && r.value.createdBy == d.createdBy
      && r.value.price == d.price && r.value.votes == d.votes
    ensures |d.tags| > MaxTags ==> r.None?
    ensures Trim(d.name) == [] || JsLength(Trim(d.name)) > MaxNameLength ==> r.None?
    ensures Trim(d.description) == [] || JsLength(Trim(d.description)) > MaxDescriptionLength ==> r.None?
    ensures d.price.Some? && d.price.value < 0.0 ==> r.None?
    ensures d.pricingType == "paid" && (d.price.None? || d.price.value <= 0.0) ==> r.None?
    ensures d.difficulty !in {"beginner", "intermediate", "advanced"} ==> r.None?
    ensures d.pricingType !in {"free", "paid"} ==> r.None?
  {
    var diff := ParseDifficulty(d.difficulty);
    var st := ParseStatus(d.status.GetOr("pending"));
    var pt := ParsePricing(d.pricingType);
    if diff.None? || st.None? || pt.None? then None
    else
      TrimFixesTrimmed(d.name);
      TrimFixesTrimmed(d.description);
      TrimFixesTrimmed(d.url);
      var r := Resource(Trim(d.name), Trim(d.description), Trim(d.url), d.category, d.rtype,
                        diff.value, d.tags, st.value, d.createdBy, pt.value, d.price, d.votes);
      if ValidResource(r) then Some(r) else None
  }

  /** The draft a stored resource would have been created from. */
  function DraftOf(r: Resource): Draft {
    Draft(r.name, r.description, r.url, r.category, r.rtype, DifficultyName(r.difficulty),
          r.tags, Some(StatusName(r.status)), r.createdBy, PricingName(r.pricingType),
          r.price, r.votes)
  }

  /** Validation accepts every valid document unchanged: the validators reject nothing more. */
  lemma ValidateAcceptsValid(r: Resource)
    requires ValidResource(r)
    ensures Validate(DraftOf(r)) == Some(r)
  {
    EnumNamesRoundTrip(r.difficulty, r.status, r.pricingType);
    TrimFixesTrimmed(r.name);
    TrimFixesTrimmed(r.description);
    TrimFixesTrimmed(r.url);
  }

  /**
   * `maxlength` counts UTF-16 code units: sixty emoji make a name of sixty
   * characters that is still too long for the 100-unit limit.
   */
  lemma AstralNameTooLong(d: Draft)
    requires d.name == seq(60, _ => '\U{1F600}')
    ensures |d.name| <= MaxNameLength
    ensures Validate(d).None?
  {
    JsLengthOfRun('\U{1F600}', 60);
    TrimFixesTrimmed(d.name);
  }

  /** The `voteCount` virtual: upvotes minus downvotes, absent counters read as zero. */
  function VoteCount(votes: Option<Votes>): (n: int)
    ensures votes.None? ==> n == 0
    ensures votes.Some? ==> -(votes.value.downvotes as int) <= n <= votes.value.upvotes
    ensures votes.Some? ==> n + votes.value.downvotes == votes.value.upvotes
  {
    var v := votes.GetOr(Votes(0, 0));
    v.upvotes - v.downvotes
  }
}
