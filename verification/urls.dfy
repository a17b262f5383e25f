/**
 Listing-page URLs. Each adapter embeds the company slug,
 `company.lower().replace(' ', '-')`, and the page number in a site-specific
 template.
 */
module Urls {
  import opened Decimal
  import opened Scraper

  predicate IsUpper(c: char) {
    'A' <= c <= 'Z'
  }

  /** `str.lower` on one character, for the ASCII letters. */
  function LowerChar(c: char): char {
    if IsUpper(c) then (c as int - 'A' as int + 'a' as int) as char else c
  }

  function Lower(s: string): (t: string)
    ensures |t| == |s|
    ensures forall i :: 0 <= i < |s| ==> t[i] == LowerChar(s[i])
  {
    if |s| == 0 then [] else [LowerChar(s[0])] + Lower(s[1..])
  }

  /** `str.replace(' ', '-')`. */
  function SpacesToHyphens(s: string): (t: string)
    ensures |t| == |s|
    ensures forall i :: 0 <= i < |s| ==> t[i] == (if s[i] == ' ' then '-' else s[i])
  {
    if |s| == 0 then [] else [if s[0] == ' ' then '-' else s[0]] + SpacesToHyphens(s[1..])
  }

  /** The company part of every listing URL. */
  function Slug(company: string): (s: string)
    ensures |s| == |company|
    ensures forall i :: 0 <= i < |s| ==> s[i] != ' ' && !IsUpper(s[i])
  {
    SpacesToHyphens(Lower(company))
  }

  /**
   The slug keeps the name's length, has no space and no upper-case letter,
   and keeps every other character of the lower-cased name in place.
   */
  lemma SlugShape(company: string)
    ensures |Slug(company)| == |company|
    ensures forall i :: 0 <= i < |company| ==>
      Slug(company)[i] == (if company[i] == ' ' then '-' else LowerChar(company[i]))
    ensures forall i :: 0 <= i < |company| ==> Slug(company)[i] != ' ' && !IsUpper(Slug(company)[i])
  {
  }

  /** A slug is its own slug: feeding the slug back in as the company name selects the same listing. */
  lemma SlugIdempotent(company: string)
    ensures Slug(Slug(company)) == Slug(company)
  {
  }

  predicate NoSpace(s: string) {
    forall i :: 0 <= i < |s| ==> s[i] != ' '
  }

  lemma NoSpaceAppend(a: string, b: string)
    requires NoSpace(a) && NoSpace(b)
    ensures NoSpace(a + b)
  {
    forall i | 0 <= i < |a + b|
      ensures (a + b)[i] != ' '
    {
      if i >= |a| {
        assert (a + b)[i] == b[i - |a|];
      }
    }
  }

  /** The text before the slug in each adapter's URL. */
  function UrlPrefix(src: Source): string {
    match src
    case G2 => "https://www.g2.com/products/"
    case Capterra => "https://www.capterra.com/p/"
    case TrustRadius => "https://www.trustradius.com/products/"
  }

  /** The text between the slug and the page number. */
  function UrlQuery(src: Source): string {
    match src
    case G2 => "/reviews?page="
    case Capterra => "/reviews/?page="
    case TrustRadius => "/reviews?page="
  }

  /** The URL the adapter for `src` fetches for listing page `page` (counted from 1). */
  function PageUrl(src: Source, company: string, page: nat): (url: string)
    ensures NoSpace(url)
  {
    var head, slug, query, number := UrlPrefix(src), Slug(company), UrlQuery(src), Show(page);
    assert NoSpace(head) && NoSpace(slug) && NoSpace(query) && NoSpace(number);
    NoSpaceAppend(head, slug);
    NoSpaceAppend(head + slug, query);
    NoSpaceAppend(head + slug + query, number);
    head + slug + query + number
  }

  /** Successive pages are fetched from distinct URLs: the URL determines the page number. */
  lemma PageUrlInjective(src: Source, company: string, m: nat, n: nat)
    requires PageUrl(src, company, m) == PageUrl(src, company, n)
    ensures m == n
  {
    var head := UrlPrefix(src) + Slug(company) + UrlQuery(src);
    assert PageUrl(src, company, m)[|head|..] == Show(m);
    assert PageUrl(src, company, n)[|head|..] == Show(n);
    ShowInjective(m, n);
  }
}
