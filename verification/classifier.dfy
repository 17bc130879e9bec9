/**
 * The indicator classifier of the OTX crawler: the linear search `find`, the
 * trusted raw-type list with its four category groups, the rewrite chain
 * exactly as `getDataOnePage` applies it, and the single total mapping
 * `Classify` that the chain is proved to equal.
 */
module Classifier {
  import opened Wrappers

  /** `find`: the first index holding `val`, or (-1, false) when there is none. */
  function Find(slice: seq<string>, val: string): (r: (int, bool))
    ensures r.1 <==> val in slice
    ensures r.1 ==> 0 <= r.0 < |slice| && slice[r.0] == val
    ensures r.1 ==> forall j :: 0 <= j < r.0 ==> slice[j] != val
    ensures !r.1 ==> r.0 == -1
  {
    if |slice| == 0 then (-1, false)
    else if slice[0] == val then (0, true)
    else
      var (i, found) := Find(slice[1..], val);
      if found then (i + 1, true) else (-1, false)
  }

  /** Raw feed types the crawler accepts (FileHash-MD5 appears twice, as in the crawler's list). */
  const TrustType: seq<string> :=
    ["FileHash-MD5", "FileHash-PEHASH", "FileHash-SHA256", "FileHash-SHA1", "FileHash-IMPHASH",
     "FileHash-MD5", "URL", "URI", "hostname", "domain", "IPv6", "IPv4", "BitcoinAddress"]
  const SampleTypes: seq<string> :=
    ["FileHash-MD5", "FileHash-PEHASH", "FileHash-SHA256", "FileHash-SHA1", "FileHash-IMPHASH",
     "FileHash-MD5"]
  const UrlTypes: seq<string> := ["URL", "URI"]
  const DomainTypes: seq<string> := ["hostname", "domain"]
  const IpAddressTypes: seq<string> := ["IPv6", "IPv4", "BitcoinAddress"]

  /** The four canonical categories an accepted indicator is filed under. */
  datatype Category = Sample | Url | Domain | IpAddress

  function Name(c: Category): string {
    match c
    case Sample => "sample"
    case Url => "url"
    case Domain => "domain"
    case IpAddress => "ipaddress"
  }

  predicate IsCanonicalName(t: string) {
    exists c :: Name(c) == t
  }

  /** The raw-type group belonging to each category. */
  function Group(c: Category): seq<string> {
    match c
    case Sample => SampleTypes
    case Url => UrlTypes
    case Domain => DomainTypes
    case IpAddress => IpAddressTypes
  }

  /** The reference classification: one table lookup, no ordering involved. */
  const CategoryOf: map<string, Category> := map[
    "FileHash-MD5" := Sample, "FileHash-PEHASH" := Sample, "FileHash-SHA256" := Sample,
    "FileHash-SHA1" := Sample, "FileHash-IMPHASH" := Sample,
    "URL" := Url, "URI" := Url,
    "hostname" := Domain, "domain" := Domain,
    "IPv6" := IpAddress, "IPv4" := IpAddress, "BitcoinAddress" := IpAddress]

  function Classify(rawType: string): Option<Category> {
    if rawType in CategoryOf then Some(CategoryOf[rawType]) else None
  }

  /**
   * The rewrite chain as `getDataOnePage` runs it: a trust check, then four
   * successive tests, each of which may overwrite the type read by the next.
   */
  function RewriteChain(rawType: string): Option<string> {
    if !Find(TrustType, rawType).1 then None
    else
      var t1 := if Find(SampleTypes, rawType).1 then "sample" else rawType;
      var t2 := if Find(UrlTypes, t1).1 then "url" else t1;
      var t3 := if Find(DomainTypes, t2).1 then "domain" else t2;
      var t4 := if Find(IpAddressTypes, t3).1 then "ipaddress" else t3;
      Some(t4)
  }

  /** The four groups are pairwise disjoint. */
  lemma GroupsDisjoint(c: Category, d: Category, t: string)
    requires c != d
    ensures !(t in Group(c) && t in Group(d))
  {
  }

  /** The union of the four groups is exactly the trusted list, as a set. */
  lemma GroupsCoverTrustType(t: string)
    ensures t in TrustType <==> exists c :: t in Group(c)
  {
    if t in TrustType {
      assert t in Group(CategoryOf[t]);
    }
  }

  /**
   * A canonical name occurs in a group only as the raw type "domain" of the
   * domain group itself, so no step of the chain can rewrite a name that an
   * earlier step wrote.
   */
  lemma CanonicalNameOnlyInOwnGroup(c: Category, d: Category)
    ensures Name(c) in Group(d) <==> c == Domain && d == Domain
  {
  }

  /** The table classifies a raw type exactly when it is trusted, into the group holding it. */
  lemma ClassifyMatchesGroups(rawType: string)
    ensures Classify(rawType).Some? <==> rawType in TrustType
    ensures forall c :: Classify(rawType) == Some(c) <==> rawType in Group(c)
  {
  }

  /**
   * The sequential rewrite chain equals the single total mapping: an untrusted
   * type is dropped and a trusted one ends as the name of its one category.
   */
  lemma RewriteChainIsClassify(rawType: string)
    ensures RewriteChain(rawType) == Classify(rawType).Map(Name)
  {
    ClassifyMatchesGroups(rawType);
    if c :| rawType in Group(c) {
      RewriteChainOnGroupMember(c, rawType);
    }
  }

  /** A member of one group is rewritten to that group's name by the chain. */
  lemma RewriteChainOnGroupMember(c: Category, rawType: string)
    requires rawType in Group(c)
    ensures RewriteChain(rawType) == Some(Name(c))
  {
    GroupsCoverTrustType(rawType);
    match c
    case Sample => ChainOnSample(rawType);
    case Url => ChainOnUrl(rawType);
    case Domain => ChainOnDomain(rawType);
    case IpAddress => ChainOnIpAddress(rawType);
  }

  lemma ChainOnSample(rawType: string)
    requires rawType in SampleTypes && rawType in TrustType
    ensures RewriteChain(rawType) == Some("sample")
  {
    CanonicalNameOnlyInOwnGroup(Sample, Url);
    CanonicalNameOnlyInOwnGroup(Sample, Domain);
    CanonicalNameOnlyInOwnGroup(Sample, IpAddress);
  }

  lemma ChainOnUrl(rawType: string)
    requires rawType in UrlTypes && rawType in TrustType
    ensures RewriteChain(rawType) == Some("url")
  {
    GroupsDisjoint(Url, Sample, rawType);
    CanonicalNameOnlyInOwnGroup(Url, Domain);
    CanonicalNameOnlyInOwnGroup(Url, IpAddress);
  }

  lemma ChainOnDomain(rawType: string)
    requires rawType in DomainTypes && rawType in TrustType
    ensures RewriteChain(rawType) == Some("domain")
  {
    GroupsDisjoint(Domain, Sample, rawType);
    GroupsDisjoint(Domain, Url, rawType);
    CanonicalNameOnlyInOwnGroup(Domain, IpAddress);
  }

  lemma ChainOnIpAddress(rawType: string)
    requires rawType in IpAddressTypes && rawType in TrustType
    ensures RewriteChain(rawType) == Some("ipaddress")
  {
    GroupsDisjoint(IpAddress, Sample, rawType);
    GroupsDisjoint(IpAddress, Url, rawType);
    GroupsDisjoint(IpAddress, Domain, rawType);
  }

  /** Runs the rewrite chain on one raw type, stating its result as the table's. */
  method ClassifyType(rawType: string) returns (r: Option<string>)
    ensures r == Classify(rawType).Map(Name)
  {
    r := RewriteChain(rawType);
    RewriteChainIsClassify(rawType);
  }

  /** Every trusted raw type ends as exactly one canonical name. */
  lemma RewriteChainCanonical(rawType: string)
    ensures RewriteChain(rawType).Some? <==> rawType in TrustType
    ensures RewriteChain(rawType).Some? ==> IsCanonicalName(RewriteChain(rawType).value)
  {
    RewriteChainIsClassify(rawType);
    ClassifyMatchesGroups(rawType);
  }
}
