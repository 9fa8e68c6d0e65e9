/**
 * The page compositor that the scheduled publisher and the immediate publisher share: the tag
 * fragment, the keyword string, and the chain of eight global replaces that fills the
 * placeholders `{{NAME}}` of the page template, one placeholder after the other.
 *
 * Because the replaces run one after the other on the text the previous one produced, a value
 * that itself holds a placeholder of a later step is substituted again (`Resubstitution`).
 */
module PageTemplate {
  import opened Text

  /** `{{name}}`. */
  function Placeholder(name: string): string {
    "{{" + name + "}}"
  }

  /** A placeholder name: no braces in it. */
  predicate IsName(name: string) {
    '{' !in name && '}' !in name
  }

  /** One step of the chain: every `{{name}}` becomes `value`. */
  datatype Substitution = Substitution(name: string, value: string)

  /** The replaces of the chain, in order, each on the result of the one before. */
  function Substitute(template: string, subs: seq<Substitution>): string
    decreases |subs|
  {
    if |subs| == 0 then template
    else Substitute(ReplaceAll(template, Placeholder(subs[0].name), subs[0].value), subs[1..])
  }

  /** One tag as the page shows it. */
  function TagSpan(tag: string): string {
    "<span class=\"post-tag\">" + tag + "</span>"
  }

  /** `(tags || []).map(tag => <span ...>).join('')`. */
  function TagsHtml(tags: seq<string>): string {
    Join(Spans(tags), "")
  }

  /** `tags.map(tag => ...)`: one span per tag. */
  function Spans(tags: seq<string>): (r: seq<string>)
    ensures |r| == |tags| && forall i :: 0 <= i < |tags| ==> r[i] == TagSpan(tags[i])
  {
    seq(|tags|, i requires 0 <= i < |tags| => TagSpan(tags[i]))
  }

  /** `(seoKeywords || []).join(', ')`. */
  function KeywordsString(keywords: seq<string>): string {
    Join(keywords, ", ")
  }

  /** What is filled in for a post: the eight values in the order of the chain. */
  function PageSubstitutions(title: string, html: string, date: string, category: string,
                             tags: seq<string>, description: string, keywords: seq<string>,
                             slug: string): (subs: seq<Substitution>)
    ensures |subs| == 8
  {
    [ Substitution("POST_TITLE", title),
      Substitution("POST_CONTENT", html),
      Substitution("POST_DATE", date),
      Substitution("POST_CATEGORY", if category == "" then "general" else category),
      Substitution("POST_TAGS", TagsHtml(tags)),
      Substitution("META_DESCRIPTION", if description == "" then title else description),
      Substitution("KEYWORDS", KeywordsString(keywords)),
      Substitution("URL_SLUG", slug) ]
  }

  /** The page of a post: the template with the eight placeholders filled in turn. */
  function ComposePage(template: string, title: string, html: string, date: string,
                       category: string, tags: seq<string>, description: string,
                       keywords: seq<string>, slug: string): string
  {
    Substitute(template, PageSubstitutions(title, html, date, category, tags, description, keywords, slug))
  }

  // ---------------------------------------------------------------- the tag fragment

  /** The fragment of a list of tags is the fragments of its two halves side by side. */
  lemma TagsHtmlConcat(a: seq<string>, b: seq<string>)
    ensures TagsHtml(a + b) == TagsHtml(a) + TagsHtml(b)
  {
    var sa := Spans(a);
    var sb := Spans(b);
    SpansConcat(a, b);
    if |a| == 0 {
      assert sa + sb == sb;
    } else if |b| == 0 {
      assert sa + sb == sa;
    } else {
      JoinConcat(sa, sb, "");
    }
  }

  lemma SpansConcat(a: seq<string>, b: seq<string>)
    ensures Spans(a + b) == Spans(a) + Spans(b)
  {
    var sab := Spans(a + b);
    var sa := Spans(a);
    var sb := Spans(b);
    forall i | 0 <= i < |a + b|
      ensures sab[i] == (sa + sb)[i]
    {
      if i < |a| {
        assert (a + b)[i] == a[i];
      } else {
        assert (a + b)[i] == b[i - |a|];
      }
    }
  }

  /** No tags, no fragment; one tag, one span. */
  lemma TagsHtmlBase(tag: string)
    ensures TagsHtml([]) == ""
    ensures TagsHtml([tag]) == "<span class=\"post-tag\">" + tag + "</span>"
  {
    assert Spans([tag]) == [TagSpan(tag)];
  }

  /** Every tag's span stands in the fragment, in the order of the tags. */
  lemma TagsHtmlEach(tags: seq<string>, i: nat)
    requires i < |tags|
    ensures TagsHtml(tags) == TagsHtml(tags[..i]) + TagSpan(tags[i]) + TagsHtml(tags[i + 1..])
  {
    assert tags == tags[..i] + ([tags[i]] + tags[i + 1..]);
    TagsHtmlConcat(tags[..i], [tags[i]] + tags[i + 1..]);
    TagsHtmlConcat([tags[i]], tags[i + 1..]);
    TagsHtmlBase(tags[i]);
  }

  // ---------------------------------------------------------------- the keyword string

  /**
   * The keyword string splits back into the keywords when there is at least one and none of
   * them holds `, `.
   */
  lemma KeywordsRoundTrip(keywords: seq<string>)
    requires |keywords| > 0
    requires forall k :: 0 <= k < |keywords| ==> SepFree(keywords[k], ", ")
    ensures Split(KeywordsString(keywords), ", ") == keywords
  {
    SplitJoin(keywords, ", ");
  }

  // ---------------------------------------------------------------- placeholders

  /** Text without `{` holds no placeholder, and the chain leaves it as it is. */
  lemma {:induction false} SubstitutePlain(t: string, subs: seq<Substitution>)
    requires '{' !in t
    ensures Substitute(t, subs) == t
    decreases |subs|
  {
    if |subs| > 0 {
      var p := Placeholder(subs[0].name);
      assert t + "" == t;
      ReplaceAllPlain(t, "", p, subs[0].value);
      SubstitutePlain(t, subs[1..]);
    }
  }

  /** One placeholder never stands inside another with a different name. */
  lemma PlaceholderNotInOther(a: string, b: string)
    requires IsName(a) && IsName(b) && a != b
    ensures !Contains(Placeholder(a), Placeholder(b))
  {
    var pa := Placeholder(a);
    var pb := Placeholder(b);
    forall i: nat | i <= |pa|
      ensures !OccursAt(pa, pb, i)
    {
      if i + |pb| <= |pa| {
        if i == 0 {
          if |b| < |a| {
            assert pb[2 + |b|] == '}' && pa[2 + |b|] == a[|b|];
            assert pa[0..|pb|][2 + |b|] != pb[2 + |b|];
          } else {
            var j :| 0 <= j < |a| && a[j] != b[j];
            assert pa[0..|pb|][2 + j] != pb[2 + j];
          }
        } else {
          assert pa[i + 1] == a[i - 1];
          assert pa[i..i + |pb|][1] != pb[1];
        }
      }
    }
  }

  /** A placeholder replaced by its own step gives the value. */
  lemma ReplaceWhole(p: string, v: string)
    requires |p| > 0
    ensures ReplaceAll(p, p, v) == v
  {
    ReplaceAllAt(p, p, v);
    assert p[|p|..] == "";
    assert v + "" == v;
  }

  /**
   * A template that is the placeholder of step `k` comes out as the value of step `k`, when no
   * earlier step has the same name and no value from step `k` on holds a `{`.
   */
  lemma {:induction false} SubstituteLands(subs: seq<Substitution>, k: nat)
    requires k < |subs|
    requires forall j :: 0 <= j < |subs| ==> IsName(subs[j].name)
    requires forall j :: 0 <= j < k ==> subs[j].name != subs[k].name
    requires forall j :: k <= j < |subs| ==> '{' !in subs[j].value
    ensures Substitute(Placeholder(subs[k].name), subs) == subs[k].value
    decreases k
  {
    var t := Placeholder(subs[k].name);
    var next := ReplaceAll(t, Placeholder(subs[0].name), subs[0].value);
    if k == 0 {
      ReplaceWhole(t, subs[0].value);
      SubstitutePlain(subs[0].value, subs[1..]);
    } else {
      PlaceholderNotInOther(subs[k].name, subs[0].name);
      ReplaceAllAbsent(t, Placeholder(subs[0].name), subs[0].value);
      assert subs[1..][k - 1] == subs[k];
      SubstituteLands(subs[1..], k - 1);
    }
  }

  /** The eight names are distinct placeholder names. */
  lemma PageNames(subs: seq<Substitution>)
    requires |subs| == 8
    requires subs[0].name == "POST_TITLE" && subs[1].name == "POST_CONTENT"
    requires subs[2].name == "POST_DATE" && subs[3].name == "POST_CATEGORY"
    requires subs[4].name == "POST_TAGS" && subs[5].name == "META_DESCRIPTION"
    requires subs[6].name == "KEYWORDS" && subs[7].name == "URL_SLUG"
    ensures forall j :: 0 <= j < 8 ==> IsName(subs[j].name)
    ensures forall j, k :: 0 <= j < k < 8 ==> subs[j].name != subs[k].name
  {
    PageNamesBraceFree(subs);
    PageNamesDistinct(subs);
  }

  lemma PageNamesBraceFree(subs: seq<Substitution>)
    requires |subs| == 8
    requires subs[0].name == "POST_TITLE" && subs[1].name == "POST_CONTENT"
    requires subs[2].name == "POST_DATE" && subs[3].name == "POST_CATEGORY"
    requires subs[4].name == "POST_TAGS" && subs[5].name == "META_DESCRIPTION"
    requires subs[6].name == "KEYWORDS" && subs[7].name == "URL_SLUG"
    ensures forall j :: 0 <= j < 8 ==> IsName(subs[j].name)
  {
    PostNames();
    OtherNames();
  }

  lemma PostNames()
    ensures IsName("POST_TITLE") && IsName("POST_CONTENT") && IsName("POST_DATE")
    ensures IsName("POST_CATEGORY") && IsName("POST_TAGS")
  {
  }

  lemma OtherNames()
    ensures IsName("META_DESCRIPTION") && IsName("KEYWORDS") && IsName("URL_SLUG")
  {
  }

  lemma PageNamesDistinct(subs: seq<Substitution>)
    requires |subs| == 8
    requires subs[0].name == "POST_TITLE" && subs[1].name == "POST_CONTENT"
    requires subs[2].name == "POST_DATE" && subs[3].name == "POST_CATEGORY"
    requires subs[4].name == "POST_TAGS" && subs[5].name == "META_DESCRIPTION"
    requires subs[6].name == "KEYWORDS" && subs[7].name == "URL_SLUG"
    ensures forall j, k :: 0 <= j < k < 8 ==> subs[j].name != subs[k].name
  {
    assert |subs[0].name| == 10 && |subs[1].name| == 12 && |subs[2].name| == 9;
    assert |subs[3].name| == 13 && |subs[4].name| == 9 && |subs[5].name| == 16;
    assert |subs[6].name| == 8 && |subs[7].name| == 8;
    assert subs[2].name[5] != subs[4].name[5];
    assert subs[6].name[0] != subs[7].name[0];
  }

  /**
   * Each placeholder of the template is filled with its value: the title, the body, the date,
   * the category or `general`, the tag fragment, the description or the title, the keyword
   * string and the slug; provided no value holds a `{`.
   */
  lemma PlaceholderFilled(k: nat, title: string, html: string, date: string, category: string,
                          tags: seq<string>, description: string, keywords: seq<string>,
                          slug: string)
    requires k < 8
    requires var subs := PageSubstitutions(title, html, date, category, tags, description, keywords, slug);
      forall j :: 0 <= j < 8 ==> '{' !in subs[j].value
    ensures var subs := PageSubstitutions(title, html, date, category, tags, description, keywords, slug);
      ComposePage(Placeholder(subs[k].name), title, html, date, category, tags, description,
                  keywords, slug) == subs[k].value
  {
    var subs := PageSubstitutions(title, html, date, category, tags, description, keywords, slug);
    PageNames(subs);
    SubstituteLands(subs, k);
  }

  /**
   * The chain substitutes again: a title that reads `{{URL_SLUG}}` on a template that is just
   * `{{POST_TITLE}}` comes out as the slug, not as the title's own text.
   */
  lemma Resubstitution(html: string, date: string, category: string, tags: seq<string>,
                       description: string, keywords: seq<string>, slug: string)
    requires '{' !in slug
    ensures ComposePage(Placeholder("POST_TITLE"), Placeholder("URL_SLUG"), html, date, category,
                        tags, description, keywords, slug) == slug
  {
    var title := Placeholder("URL_SLUG");
    var subs := PageSubstitutions(title, html, date, category, tags, description, keywords, slug);
    PageNames(subs);
    ReplaceWhole(Placeholder("POST_TITLE"), title);
    assert subs[1..][6] == subs[7];
    SubstituteLands(subs[1..], 6);
  }
}
