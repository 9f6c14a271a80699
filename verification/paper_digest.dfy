/** The minimal arXiv digest generator: condensing a fetched Atom entry,
    the abstract callout, the Markdown layout of the digest and the
    skip / fail-without-write rule of its `main`. Fetching and XML parsing
    are outside the model: a run receives the entries already extracted, or
    the error the fetch raised. */
module PaperDigest {
  import opened Wrappers
  import opened Text
  import opened Calendar
  import opened Notes

  // ---------------------------------------------------------------------
  // Condensing one entry (fetch_arxiv_entries)

  /** Python truthiness of an optional text: present and non-empty. */
  predicate Truthy(t: Option<string>) {
    t.Some? && t.value != ""
  }

  /** The stripped texts of the author nodes whose text is truthy, in order. */
  function KeptNames(nodes: seq<Option<string>>): (r: seq<string>)
    ensures |r| <= |nodes|
    ensures r == [] <==> forall j :: 0 <= j < |nodes| ==> !Truthy(nodes[j])
  {
    if |nodes| == 0 then []
    else if Truthy(nodes[0]) then [Strip(nodes[0].value)] + KeptNames(nodes[1..])
    else KeptNames(nodes[1..])
  }

  /** Each node contributes on its own: the names kept from consecutive
      runs of nodes are those of each run, in order. */
  lemma {:induction false} KeptNamesOfConcatenation(a: seq<Option<string>>, b: seq<Option<string>>)
    ensures KeptNames(a + b) == KeptNames(a) + KeptNames(b)
  {
    if |a| > 0 {
      assert (a + b)[0] == a[0];
      assert (a + b)[1..] == a[1..] + b;
      KeptNamesOfConcatenation(a[1..], b);
    } else {
      assert a + b == b;
    }
  }

  /** One node gives its stripped text when that text is truthy, and
      nothing otherwise. */
  lemma KeptNamesOfOne(node: Option<string>)
    ensures KeptNames([node]) == if Truthy(node) then [Strip(node.value)] else []
  {
    assert [node][1..] == [];
  }

  const MaxAuthors: nat := 6
  const EtAl: string := ", et al."
  const UnknownAuthors: string := "Unknown"

  /** The authors field: the names among the first six author nodes joined
      by ", ", with ", et al." when there are more than six nodes, and
      "Unknown" when that leaves nothing. */
  function CondenseAuthors(nodes: seq<Option<string>>): (r: string)
    ensures r != ""
    ensures |nodes| > MaxAuthors ==> EndsWith(r, EtAl)
    ensures |nodes| > MaxAuthors ==> r == Join(KeptNames(nodes[..MaxAuthors]), ", ") + EtAl
    ensures |nodes| <= MaxAuthors && Join(KeptNames(nodes), ", ") == "" ==> r == UnknownAuthors
    ensures |nodes| <= MaxAuthors && Join(KeptNames(nodes), ", ") != "" ==> r == Join(KeptNames(nodes), ", ")
  {
    var shown := if |nodes| > MaxAuthors then nodes[..MaxAuthors] else nodes;
    var authors := Join(KeptNames(shown), ", ") + (if |nodes| > MaxAuthors then EtAl else "");
    if authors == "" then UnknownAuthors else authors
  }

  /** Author nodes after the sixth change nothing but the ", et al." mark. */
  lemma AuthorsAfterSixthIgnored(nodes1: seq<Option<string>>, nodes2: seq<Option<string>>)
    requires |nodes1| > MaxAuthors && |nodes2| > MaxAuthors
    requires nodes1[..MaxAuthors] == nodes2[..MaxAuthors]
    ensures CondenseAuthors(nodes1) == CondenseAuthors(nodes2)
  {
  }

  /** At most six names are shown, each the stripped text of a node among
      the first six. */
  lemma {:induction false} KeptNamesFromNodes(nodes: seq<Option<string>>, k: nat)
    requires k < |KeptNames(nodes)|
    ensures exists j :: 0 <= j < |nodes| && Truthy(nodes[j]) && KeptNames(nodes)[k] == Strip(nodes[j].value)
  {
    if Truthy(nodes[0]) && k == 0 {
      assert KeptNames(nodes)[0] == Strip(nodes[0].value);
    } else {
      var k' := if Truthy(nodes[0]) then k - 1 else k;
      KeptNamesAfterFirst(nodes, k);
      KeptNamesFromNodes(nodes[1..], k');
      var j :| 0 <= j < |nodes[1..]| && Truthy(nodes[1..][j]) && KeptNames(nodes[1..])[k'] == Strip(nodes[1..][j].value);
      assert nodes[j + 1] == nodes[1..][j];
    }
  }

  /** Past the first node's own name, the names come from the other nodes. */
  lemma KeptNamesAfterFirst(nodes: seq<Option<string>>, k: nat)
    requires k < |KeptNames(nodes)| && !(Truthy(nodes[0]) && k == 0)
    ensures var k' := if Truthy(nodes[0]) then k - 1 else k;
            k' < |KeptNames(nodes[1..])| && KeptNames(nodes)[k] == KeptNames(nodes[1..])[k']
  {
    var rest := KeptNames(nodes[1..]);
    if Truthy(nodes[0]) {
      assert KeptNames(nodes) == [Strip(nodes[0].value)] + rest;
      ConsAt(Strip(nodes[0].value), rest, k);
    } else {
      assert KeptNames(nodes) == rest;
    }
  }

  lemma ConsAt<T>(h: T, t: seq<T>, k: nat)
    requires 0 < k <= |t|
    ensures ([h] + t)[k] == t[k - 1]
  {
  }

  /** The backticked terms of the category nodes whose term is truthy. */
  function KeptTerms(terms: seq<Option<string>>): (r: seq<string>)
    ensures |r| <= |terms|
    ensures r == [] <==> forall j :: 0 <= j < |terms| ==> !Truthy(terms[j])
    ensures forall k :: 0 <= k < |r| ==> |r[k]| >= 3 && r[k][0] == '`' && r[k][|r[k]| - 1] == '`'
  {
    if |terms| == 0 then []
    else if Truthy(terms[0]) then ["`" + terms[0].value + "`"] + KeptTerms(terms[1..])
    else KeptTerms(terms[1..])
  }

  /** Each category node contributes on its own, as for the authors. */
  lemma {:induction false} KeptTermsOfConcatenation(a: seq<Option<string>>, b: seq<Option<string>>)
    ensures KeptTerms(a + b) == KeptTerms(a) + KeptTerms(b)
  {
    if |a| > 0 {
      assert (a + b)[0] == a[0];
      assert (a + b)[1..] == a[1..] + b;
      KeptTermsOfConcatenation(a[1..], b);
    } else {
      assert a + b == b;
    }
  }

  /** One category node gives its term in backticks when the term is
      truthy, and nothing otherwise. */
  lemma KeptTermsOfOne(term: Option<string>)
    ensures KeptTerms([term]) == if Truthy(term) then ["`" + term.value + "`"] else []
  {
    assert [term][1..] == [];
  }

  const NoCategories: string := "`N/A`"

  /** The categories field: the backticked terms joined by spaces, or
      "`N/A`" when no node has a term. */
  function CondenseCategories(terms: seq<Option<string>>): (r: string)
    ensures (forall j :: 0 <= j < |terms| ==> !Truthy(terms[j])) ==> r == NoCategories
    ensures (exists j :: 0 <= j < |terms| && Truthy(terms[j])) ==> r == Join(KeptTerms(terms), " ")
  {
    var categories := Join(KeptTerms(terms), " ");
    if categories == "" then NoCategories else categories
  }

  /** A joined list of non-empty parts is empty only when the list is. */
  lemma {:induction false} JoinNonEmpty(parts: seq<string>, sep: string)
    requires |parts| > 0 && parts[0] != ""
    ensures Join(parts, sep) != ""
  {
    if |parts| > 1 {
      assert |Join(parts, sep)| >= |parts[0]|;
    }
  }

  /** Terms without spaces can be read back from the categories field by
      splitting it on spaces. */
  lemma CategoriesReadBack(terms: seq<Option<string>>)
    requires forall j :: 0 <= j < |terms| && terms[j].Some? ==> ' ' !in terms[j].value
    ensures Split(CondenseCategories(terms), ' ')
            == (if KeptTerms(terms) == [] then [NoCategories] else KeptTerms(terms))
  {
    var kept := KeptTerms(terms);
    if kept == [] {
      assert CondenseCategories(terms) == NoCategories;
      assert ' ' !in NoCategories;
      SplitOfPlain(NoCategories, ' ');
    } else {
      assert CondenseCategories(terms) == Join(kept, [' ']) by {
        JoinNonEmpty(kept, " ");
        assert " " == [' '];
      }
      assert Split(Join(kept, [' ']), ' ') == kept by {
        KeptTermsHaveNoSpace(terms);
        SplitJoin(kept, ' ');
      }
    }
  }

  lemma {:induction false} KeptTermsHaveNoSpace(terms: seq<Option<string>>)
    requires forall j :: 0 <= j < |terms| && terms[j].Some? ==> ' ' !in terms[j].value
    ensures forall k :: 0 <= k < |KeptTerms(terms)| ==> ' ' !in KeptTerms(terms)[k]
  {
    if |terms| > 0 {
      KeptTermsHaveNoSpace(terms[1..]);
      if Truthy(terms[0]) {
        assert ' ' !in "`" + terms[0].value + "`";
      }
    }
  }

  /** One Atom entry as the XML parser hands it over: the texts of its
      title, summary, id and published elements ("" when absent), the texts
      of its author name nodes and the `term` attributes of its category
      nodes (`None` when absent). */
  datatype RawEntry = RawEntry(title: string, summary: string, id: string, published: string,
                               authors: seq<Option<string>>, categories: seq<Option<string>>)

  /** One entry of the digest. */
  datatype Entry = Entry(title: string, summary: string, id: string, published: string,
                         authors: string, categories: string)

  /** The dictionary `fetch_arxiv_entries` builds for one Atom entry. */
  function MakeEntry(raw: RawEntry): (e: Entry)
    ensures '\n' !in e.title && |e.title| == |Strip(raw.title)|
    ensures forall k :: 0 <= k < |e.title| ==>
              e.title[k] == (if Strip(raw.title)[k] == '\n' then ' ' else Strip(raw.title)[k])
    ensures e.summary == Strip(raw.summary) && e.id == Strip(raw.id)
    ensures IsStripped(e.summary) && IsStripped(e.id)
    ensures e.published <= raw.published && |e.published| == Min(10, |raw.published|)
    ensures e.authors == CondenseAuthors(raw.authors) && e.categories == CondenseCategories(raw.categories)
  {
    Entry(ReplaceChar(Strip(raw.title), '\n', ' '), Strip(raw.summary), Strip(raw.id),
          PyPrefix(raw.published, 10), CondenseAuthors(raw.authors), CondenseCategories(raw.categories))
  }

  // ---------------------------------------------------------------------
  // summary_callout

  const MaxChars: nat := 800
  const Ellipsis: string := " ..."

  /** The abstract as it goes into wrapping: its first 800 characters,
      stripped, with " ..." when something was cut. */
  function Clipped(summary: string): (r: string)
    ensures |summary| > MaxChars ==> r == Strip(summary[..MaxChars]) + Ellipsis
    ensures |summary| <= MaxChars ==> r == Strip(summary)
    ensures |r| <= MaxChars + |Ellipsis|
  {
    var clipped := Strip(PyPrefix(summary, MaxChars));
    if |summary| > MaxChars then clipped + Ellipsis else clipped
  }

  /** The quoted lines of the callout. `wrap` is `textwrap.wrap(_, width=90)`;
      an empty wrap result becomes "N/A". */
  function CalloutLines(summary: string, wrap: string -> seq<string>): (r: seq<string>)
    ensures |r| >= 1
    ensures forall k :: 0 <= k < |r| ==> StartsWith(r[k], "> ")
    ensures wrap(Clipped(summary)) == [] ==> r == [Quote("N/A")]
    ensures wrap(Clipped(summary)) != [] ==>
              |r| == |wrap(Clipped(summary))|
              && forall k :: 0 <= k < |r| ==> r[k] == Quote(wrap(Clipped(summary))[k])
  {
    var wrapped := wrap(Clipped(summary));
    var lines := if wrapped == [] then ["N/A"] else wrapped;
    var r := seq(|lines|, k requires 0 <= k < |lines| => Quote(lines[k]));
    assert forall k :: 0 <= k < |r| ==> r[k][..2] == "> ";
    r
  }

  /** A callout line: "> " and the text. */
  function Quote(text: string): (r: string)
    ensures |r| == |text| + 2 && r[0] == '>' && r[1] == ' ' && r[2..] == text
  {
    "> " + text
  }

  /** `summary_callout`: the quoted lines joined by "\n". */
  function SummaryCallout(summary: string, wrap: string -> seq<string>): (r: string)
    ensures |r| >= 2 && r[0] == '>'
  {
    var lines := CalloutLines(summary, wrap);
    JoinStarts(lines, "\n");
    Join(lines, "\n")
  }

  lemma JoinStarts(parts: seq<string>, sep: string)
    requires |parts| >= 1
    ensures |Join(parts, sep)| >= |parts[0]| && Join(parts, sep)[..|parts[0]|] == parts[0]
  {
    if |parts| > 1 {
      var j := Join(parts, sep);
      assert j == parts[0] + (sep + Join(parts[1..], sep));
    }
  }

  /** When wrapping yields single lines (as `textwrap.wrap` does: it turns
      every whitespace character into a space), every line of the callout
      starts with "> ". */
  lemma CalloutLinesQuoted(summary: string, wrap: string -> seq<string>)
    requires forall k :: 0 <= k < |wrap(Clipped(summary))| ==> '\n' !in wrap(Clipped(summary))[k]
    ensures var ls := Split(SummaryCallout(summary, wrap), '\n');
            forall k :: 0 <= k < |ls| ==> StartsWith(ls[k], "> ")
  {
    var lines := CalloutLines(summary, wrap);
    var wrapped := wrap(Clipped(summary));
    forall k | 0 <= k < |lines| ensures '\n' !in lines[k] {
      if wrapped == [] {
        assert lines[k] == Quote("N/A");
        assert '\n' !in "N/A";
      } else {
        assert lines[k] == Quote(wrapped[k]);
      }
    }
    assert "\n" == ['\n'];
    SplitJoin(lines, '\n');
  }

  // ---------------------------------------------------------------------
  // render_markdown

  /** The frontmatter, title and the two callouts every digest starts with. */
  function HeaderLines(iso: string, count: nat, query: string): (r: seq<string>)
    ensures |r| == HeaderSize
    ensures r[4] == "paper_count: " + Decimal(count)
  {
    ["---", "date: " + iso, "type: paper-digest", "source: arxiv", "paper_count: " + Decimal(count)]
    + DigestFrontMatterTail
    + ["# 论文日报 " + iso + "（社区版）"]
    + DigestInfo
    + ["> [!note] 查询词：`" + query + "`", ""]
  }

  const HeaderSize: nat := 17

  const DigestFrontMatterTail: seq<string> := ["tags:", "  - paper-digest", "  - arxiv", "---", ""]

  const DigestInfo: seq<string> := ["", "> [!info] 说明", "> 该社区版仅做抓取与整理，不包含私有 AI 提示词与深度总结策略。", ""]

  /** The warning callout of a digest without entries. */
  const NoResults: seq<string> := ["> [!warning] 无结果", "> 今日未检索到匹配论文。", ""]

  /** "## <k>. <title>". */
  function Heading(k: nat, title: string): (r: string)
    ensures IsNumberedHeading(r)
  {
    var d := Decimal(k);
    assert ("## " + d + ". " + title)[3] == d[0];
    "## " + d + ". " + title
  }

  /** A line that opens a numbered section. */
  predicate IsNumberedHeading(line: string) {
    |line| >= 4 && line[0] == '#' && line[1] == '#' && line[2] == ' ' && '0' <= line[3] <= '9'
  }

  /** A list line: "- ", a label and the value. */
  function Bullet(tag: string, value: string): (r: string)
    ensures |r| >= 2 && r[0] == '-'
  {
    "- " + tag + value
  }

  /** The lines after the heading of an entry's section; the callout is a
      single item that may hold several lines. */
  function SectionBody(e: Entry, callout: string): (r: seq<string>)
    requires |callout| >= 1 && callout[0] == '>'
    ensures |r| == 11
    ensures r[7] == callout && r[10] == ""
    ensures forall j :: 0 <= j < 11 ==> r[j] == "" || r[j][0] == '-' || r[j][0] == '>'
  {
    ["", Bullet("链接：", "[" + e.id + "](" + e.id + ")"), Bullet("日期：", e.published),
     Bullet("作者：", e.authors), Bullet("分类：", e.categories), "", Quote("[!abstract] 原始摘要（截断）"),
     callout, "", SectionRule, ""]
  }

  const SectionRule: string := "---"

  /** The twelve lines of the section of the `k`-th entry. */
  function Section(k: nat, e: Entry, wrap: string -> seq<string>): (r: seq<string>)
    ensures |r| == 12
    ensures r[0] == Heading(k, e.title)
    ensures r[8] == SummaryCallout(e.summary, wrap)
    ensures r[11] == ""
    ensures forall j :: 0 < j < 12 ==> !IsNumberedHeading(r[j])
  {
    [Heading(k, e.title)] + SectionBody(e, SummaryCallout(e.summary, wrap))
  }

  /** The items of consecutive blocks, in order. */
  function Flatten(blocks: seq<seq<string>>): (r: seq<string>)
  {
    if |blocks| == 0 then [] else blocks[0] + Flatten(blocks[1..])
  }

  /** Blocks of twelve items each: item `j` of block `k` sits at `12 * k + j`. */
  lemma {:induction false} FlattenAt(blocks: seq<seq<string>>, k: nat, j: nat)
    requires forall i :: 0 <= i < |blocks| ==> |blocks[i]| == 12
    requires k < |blocks| && j < 12
    ensures |Flatten(blocks)| == 12 * |blocks|
    ensures Flatten(blocks)[12 * k + j] == blocks[k][j]
  {
    FlattenLength(blocks);
    FlattenLength(blocks[1..]);
    if k > 0 {
      FlattenAt(blocks[1..], k - 1, j);
      assert blocks[1..][k - 1] == blocks[k];
    }
  }

  lemma {:induction false} FlattenLength(blocks: seq<seq<string>>)
    requires forall i :: 0 <= i < |blocks| ==> |blocks[i]| == 12
    ensures |Flatten(blocks)| == 12 * |blocks|
  {
    if |blocks| > 0 {
      FlattenLength(blocks[1..]);
    }
  }

  /** The sections of `entries` one by one, numbered from `first`. */
  function SectionList(entries: seq<Entry>, first: nat, wrap: string -> seq<string>): (r: seq<seq<string>>)
    ensures |r| == |entries|
    ensures forall k :: 0 <= k < |r| ==> |r[k]| == 12 && r[k] == Section(first + k, entries[k], wrap)
  {
    seq(|entries|, k requires 0 <= k < |entries| => Section(first + k, entries[k], wrap))
  }

  /** The sections of `entries`, numbered from `first`, as one list. */
  function Sections(entries: seq<Entry>, first: nat, wrap: string -> seq<string>): (r: seq<string>)
    ensures |r| == 12 * |entries|
  {
    FlattenLength(SectionList(entries, first, wrap));
    Flatten(SectionList(entries, first, wrap))
  }

  /** Item `j` of the `k`-th section is item `j` of that entry's section,
      numbered `first + k`. */
  lemma SectionsAt(entries: seq<Entry>, first: nat, wrap: string -> seq<string>, k: nat, j: nat)
    requires k < |entries| && j < 12
    ensures Sections(entries, first, wrap)[12 * k + j] == Section(first + k, entries[k], wrap)[j]
  {
    var list := SectionList(entries, first, wrap);
    FlattenAt(list, k, j);
    assert list[k] == Section(first + k, entries[k], wrap);
    assert Sections(entries, first, wrap) == Flatten(list);
  }

  /** The numbered headings of the sections are exactly their first items. */
  lemma SectionsHeadings(entries: seq<Entry>, first: nat, wrap: string -> seq<string>)
    ensures var r := Sections(entries, first, wrap);
            forall i :: 0 <= i < |r| ==> (IsNumberedHeading(r[i]) <==> i % 12 == 0)
  {
    var r := Sections(entries, first, wrap);
    forall i | 0 <= i < |r| ensures IsNumberedHeading(r[i]) <==> i % 12 == 0 {
      var k, j := i / 12, i % 12;
      SectionsAt(entries, first, wrap, k, j);
    }
  }

  /** The digest as a list of items, each a line except the callouts. */
  function DigestLines(iso: string, entries: seq<Entry>, query: string, wrap: string -> seq<string>): (r: seq<string>)
    ensures |r| >= HeaderSize && r[..HeaderSize] == HeaderLines(iso, |entries|, query)
    ensures |entries| > 0 ==> r[|r| - 1] == ""
    ensures |entries| == 0 ==> r == HeaderLines(iso, 0, query) + NoResults
    ensures |entries| > 0 ==> r[HeaderSize..] == Sections(entries, 1, wrap)
  {
    var header := HeaderLines(iso, |entries|, query);
    var body := if |entries| == 0 then NoResults else Sections(entries, 1, wrap);
    assert |entries| > 0 ==> body[|body| - 1] == "" by {
      if |entries| > 0 {
        SectionsAt(entries, 1, wrap, |entries| - 1, 11);
      }
    }
    assert (header + body)[..HeaderSize] == header;
    assert (header + body)[HeaderSize..] == body;
    header + body
  }

  /** `render_markdown`. Without entries the lines are closed by a final
      "\n"; with entries the last section's closing empty line does it. */
  function RenderDigest(iso: string, entries: seq<Entry>, query: string, wrap: string -> seq<string>): (text: string)
    ensures EndsWith(text, "\n")
  {
    var lines := DigestLines(iso, entries, query, wrap);
    if |entries| == 0 then Join(lines, "\n") + "\n"
    else
      JoinEndsEmpty(lines);
      Join(lines, "\n")
  }

  /** Lines closed by an empty line join into text ending in "\n". */
  lemma JoinEndsEmpty(lines: seq<string>)
    requires |lines| > 1 && lines[|lines| - 1] == ""
    ensures EndsWith(Join(lines, "\n"), "\n")
  {
    var init := lines[..|lines| - 1];
    assert lines == init + [""];
    assert Join(lines, "\n") == Join(init, "\n") + "\n" by {
      JoinSnoc(init, "\n", "");
    }
    EndsWithSuffix(Join(init, "\n"), "\n");
  }

  /** The digest reports the number of entries it lists: the `paper_count`
      line reads back as the count. */
  lemma DigestCount(iso: string, entries: seq<Entry>, query: string, wrap: string -> seq<string>)
    ensures var r := DigestLines(iso, entries, query, wrap);
            && StartsWith(r[4], "paper_count: ")
            && IsDigits(r[4][13..]) && DigitsValue(r[4][13..]) == |entries|
  {
    var r := DigestLines(iso, entries, query, wrap);
    var header := HeaderLines(iso, |entries|, query);
    assert r[4] == r[..HeaderSize][4] == header[4];
    assert r[4][13..] == Decimal(|entries|);
    DecimalRoundTrip(|entries|);
  }

  /** The lines after the header are the sections, item for item. */
  lemma DigestBodyAt(iso: string, entries: seq<Entry>, query: string, wrap: string -> seq<string>, i: int)
    requires HeaderSize <= i < HeaderSize + 12 * |entries|
    ensures var r := DigestLines(iso, entries, query, wrap);
            |r| == HeaderSize + 12 * |entries| && r[i] == Sections(entries, 1, wrap)[i - HeaderSize]
  {
    var r := DigestLines(iso, entries, query, wrap);
    SuffixAt(r, HeaderSize, i);
  }

  lemma SuffixAt<T>(r: seq<T>, h: nat, i: nat)
    requires h <= i < |r|
    ensures r[i] == r[h..][i - h]
  {
  }

  /** With entries, the k-th section opens with "## k. <title>" for the
      k-th entry. */
  lemma DigestTitles(iso: string, entries: seq<Entry>, query: string, wrap: string -> seq<string>)
    requires |entries| > 0
    ensures var r := DigestLines(iso, entries, query, wrap);
            && |r| == HeaderSize + 12 * |entries|
            && (forall k :: 0 <= k < |entries| ==> r[HeaderSize + 12 * k] == Heading(k + 1, entries[k].title))
  {
    var r := DigestLines(iso, entries, query, wrap);
    forall k | 0 <= k < |entries| ensures r[HeaderSize + 12 * k] == Heading(k + 1, entries[k].title) {
      DigestBodyAt(iso, entries, query, wrap, HeaderSize + 12 * k);
      SectionsAt(entries, 1, wrap, k, 0);
    }
  }

  /** After the header, the numbered headings of the digest are exactly the
      first item of each section. */
  lemma DigestHeadings(iso: string, entries: seq<Entry>, query: string, wrap: string -> seq<string>)
    requires |entries| > 0
    ensures var r := DigestLines(iso, entries, query, wrap);
            forall i :: HeaderSize <= i < |r| ==> (IsNumberedHeading(r[i]) <==> (i - HeaderSize) % 12 == 0)
  {
    var r := DigestLines(iso, entries, query, wrap);
    forall i | HeaderSize <= i < |r| ensures IsNumberedHeading(r[i]) <==> (i - HeaderSize) % 12 == 0 {
      DigestBodyAt(iso, entries, query, wrap, i);
      SectionsHeadings(entries, 1, wrap);
    }
  }

  /** Without entries the digest has the warning callout and no numbered
      heading. */
  lemma EmptyDigestHasNoHeadings(iso: string, query: string, wrap: string -> seq<string>)
    ensures var r := DigestLines(iso, [], query, wrap);
            && r[HeaderSize] == "> [!warning] 无结果"
            && forall i :: 0 <= i < |r| ==> !IsNumberedHeading(r[i])
  {
    var r := DigestLines(iso, [], query, wrap);
    HeaderHasNoHeadings(iso, 0, query);
    assert |r| == HeaderSize + 3;
    forall i | HeaderSize <= i < |r| ensures !IsNumberedHeading(r[i]) {
      assert r[i] == NoResults[i - HeaderSize];
    }
  }

  lemma HeaderHasNoHeadings(iso: string, count: nat, query: string)
    ensures var h := HeaderLines(iso, count, query);
            forall i :: 0 <= i < |h| ==> !IsNumberedHeading(h[i])
  {
    var h := HeaderLines(iso, count, query);
    forall i | 0 <= i < |h| ensures !IsNumberedHeading(h[i]) {
      if |h[i]| >= 4 {
        assert h[i][0] != '#' || h[i][1] != '#' by {
          if i == 10 {
            assert h[i][1] == ' ';
          }
        }
      }
    }
  }

  // ---------------------------------------------------------------------
  // Reading the written text back line by line

  /** An entry whose fields other than the summary are single lines. */
  predicate SingleLineEntry(e: Entry) {
    '\n' !in e.title && '\n' !in e.id && '\n' !in e.published && '\n' !in e.authors && '\n' !in e.categories
  }

  /** A wrapper that never yields a line break inside a line, as
      `textwrap.wrap` does not. */
  ghost predicate SingleLineWrap(wrap: string -> seq<string>) {
    forall x: string, k :: 0 <= k < |wrap(x)| ==> '\n' !in wrap(x)[k]
  }

  /** The numbered headings among `lines`, in order. */
  function NumberedHeadings(lines: seq<string>): (r: seq<string>)
    ensures |r| <= |lines|
    ensures forall k :: 0 <= k < |r| ==> IsNumberedHeading(r[k])
  {
    if |lines| == 0 then []
    else if IsNumberedHeading(lines[0]) then [lines[0]] + NumberedHeadings(lines[1..])
    else NumberedHeadings(lines[1..])
  }

  lemma {:induction false} NumberedHeadingsOfConcatenation(a: seq<string>, b: seq<string>)
    ensures NumberedHeadings(a + b) == NumberedHeadings(a) + NumberedHeadings(b)
  {
    if |a| > 0 {
      assert (a + b)[0] == a[0];
      assert (a + b)[1..] == a[1..] + b;
      NumberedHeadingsOfConcatenation(a[1..], b);
    } else {
      assert a + b == b;
    }
  }

  lemma {:induction false} NoNumberedHeadings(lines: seq<string>)
    requires forall j :: 0 <= j < |lines| ==> !IsNumberedHeading(lines[j])
    ensures NumberedHeadings(lines) == []
  {
    if |lines| > 0 {
      NoNumberedHeadings(lines[1..]);
    }
  }

  /** The headings "## k. <title>" of `entries`, numbered from `first`. */
  function HeadingsOf(entries: seq<Entry>, first: nat): (r: seq<string>)
    ensures |r| == |entries|
    ensures forall k :: 0 <= k < |r| ==> r[k] == Heading(first + k, entries[k].title)
  {
    seq(|entries|, k requires 0 <= k < |entries| => Heading(first + k, entries[k].title))
  }

  /** The text lines of an entry's section: the callout item spread over
      its own lines. */
  function SectionText(k: nat, e: Entry, wrap: string -> seq<string>): (r: seq<string>)
    ensures |r| >= 12 && r[0] == Heading(k, e.title)
    ensures forall j :: 0 < j < |r| ==> !IsNumberedHeading(r[j])
  {
    var body := SectionBody(e, SummaryCallout(e.summary, wrap));
    var callout := CalloutLines(e.summary, wrap);
    var r := [Heading(k, e.title)] + body[..7] + callout + body[8..];
    assert forall j :: 8 <= j < 8 + |callout| ==> r[j] == callout[j - 8];
    assert forall j :: 0 < j < 8 ==> r[j] == body[j - 1];
    assert forall j :: 8 + |callout| <= j < |r| ==> r[j] == body[j - |callout|];
    r
  }

  /** The text lines of the sections of `entries`, numbered from `first`. */
  function SectionsText(entries: seq<Entry>, first: nat, wrap: string -> seq<string>): (r: seq<string>)
    ensures NumberedHeadings(r) == HeadingsOf(entries, first)
    decreases |entries|
  {
    if |entries| == 0 then []
    else
      var head := SectionText(first, entries[0], wrap);
      var rest := SectionsText(entries[1..], first + 1, wrap);
      SectionHeadings(first, entries[0], wrap);
      NumberedHeadingsOfConcatenation(head, rest);
      assert HeadingsOf(entries, first) == [Heading(first, entries[0].title)] + HeadingsOf(entries[1..], first + 1);
      head + rest
  }

  /** A section's only numbered heading is its first line. */
  lemma SectionHeadings(k: nat, e: Entry, wrap: string -> seq<string>)
    ensures NumberedHeadings(SectionText(k, e, wrap)) == [Heading(k, e.title)]
  {
    var r := SectionText(k, e, wrap);
    assert r == [r[0]] + r[1..];
    NumberedHeadingsOfConcatenation([r[0]], r[1..]);
    NoNumberedHeadings(r[1..]);
  }

  /** The text lines of the digest: the header, then either the warning and
      the final empty line, or the sections' lines. */
  function DigestText(iso: string, entries: seq<Entry>, query: string, wrap: string -> seq<string>): (r: seq<string>)
    ensures |r| >= HeaderSize && r[4] == "paper_count: " + Decimal(|entries|)
    ensures NumberedHeadings(r) == HeadingsOf(entries, 1)
  {
    var header := HeaderLines(iso, |entries|, query);
    var rest := if |entries| == 0 then NoResults + [""] else SectionsText(entries, 1, wrap);
    HeaderHasNoHeadings(iso, |entries|, query);
    NoNumberedHeadings(header);
    NumberedHeadingsOfConcatenation(header, rest);
    if |entries| == 0 then
      NoNumberedHeadings(rest);
      header + rest
    else header + rest
  }

  /** The callout text splits back into its quoted lines. */
  lemma CalloutReadsBack(summary: string, wrap: string -> seq<string>)
    requires SingleLineWrap(wrap)
    ensures Split(SummaryCallout(summary, wrap), '\n') == CalloutLines(summary, wrap)
  {
    var lines := CalloutLines(summary, wrap);
    var wrapped := wrap(Clipped(summary));
    forall k | 0 <= k < |lines| ensures '\n' !in lines[k] {
      if wrapped == [] {
        assert lines[k] == Quote("N/A");
        assert '\n' !in "N/A";
      } else {
        assert lines[k] == Quote(wrapped[k]);
      }
    }
    assert "\n" == ['\n'];
    SplitJoin(lines, '\n');
  }

  /** The items of a section other than the callout are single lines. */
  lemma SectionPlainItems(k: nat, e: Entry, callout: string)
    requires |callout| >= 1 && callout[0] == '>'
    requires SingleLineEntry(e)
    ensures var body := SectionBody(e, callout);
            && (forall j :: 0 <= j < |[Heading(k, e.title)] + body[..7]| ==> '\n' !in ([Heading(k, e.title)] + body[..7])[j])
            && (forall j :: 0 <= j < |body[8..]| ==> '\n' !in body[8..][j])
  {
    DigitsHaveNoBreak(Decimal(k));
  }

  /** Splitting a section's items on "\n" gives its text lines. */
  lemma SectionReadsBack(k: nat, e: Entry, wrap: string -> seq<string>)
    requires SingleLineEntry(e) && SingleLineWrap(wrap)
    ensures SplitEach(Section(k, e, wrap), '\n') == SectionText(k, e, wrap)
  {
    var c := SummaryCallout(e.summary, wrap);
    var body := SectionBody(e, c);
    var front := [Heading(k, e.title)] + body[..7];
    var back := body[8..];
    SectionPartsReadBack(k, e, wrap);
    SectionAround(k, e, wrap);
    SplitEachAround(front, c, back, '\n');
  }

  /** A section is its single-line items around the callout item, and its
      text lines are the same items around the callout's lines. */
  lemma SectionAround(k: nat, e: Entry, wrap: string -> seq<string>)
    ensures var c := SummaryCallout(e.summary, wrap);
            var body := SectionBody(e, c);
            && Section(k, e, wrap) == ([Heading(k, e.title)] + body[..7]) + ([c] + body[8..])
            && SectionText(k, e, wrap) == ([Heading(k, e.title)] + body[..7]) + (CalloutLines(e.summary, wrap) + body[8..])
  {
    var c := SummaryCallout(e.summary, wrap);
    var body := SectionBody(e, c);
    assert body == body[..7] + ([c] + body[8..]);
  }

  lemma SectionPartsReadBack(k: nat, e: Entry, wrap: string -> seq<string>)
    requires SingleLineEntry(e) && SingleLineWrap(wrap)
    ensures var c := SummaryCallout(e.summary, wrap);
            var body := SectionBody(e, c);
            && SplitEach([Heading(k, e.title)] + body[..7], '\n') == [Heading(k, e.title)] + body[..7]
            && SplitEach(body[8..], '\n') == body[8..]
            && Split(c, '\n') == CalloutLines(e.summary, wrap)
  {
    var c := SummaryCallout(e.summary, wrap);
    var body := SectionBody(e, c);
    SectionPlainItems(k, e, c);
    SplitEachPlain([Heading(k, e.title)] + body[..7], '\n');
    SplitEachPlain(body[8..], '\n');
    CalloutReadsBack(e.summary, wrap);
  }

  /** The sections of consecutive entries follow one another. */
  lemma SectionsCons(entries: seq<Entry>, first: nat, wrap: string -> seq<string>)
    requires |entries| > 0
    ensures Sections(entries, first, wrap) == Section(first, entries[0], wrap) + Sections(entries[1..], first + 1, wrap)
  {
    var list := SectionList(entries, first, wrap);
    assert list[1..] == SectionList(entries[1..], first + 1, wrap);
  }

  lemma {:induction false} SectionsReadBack(entries: seq<Entry>, first: nat, wrap: string -> seq<string>)
    requires SingleLineWrap(wrap)
    requires forall k :: 0 <= k < |entries| ==> SingleLineEntry(entries[k])
    ensures SplitEach(Sections(entries, first, wrap), '\n') == SectionsText(entries, first, wrap)
    decreases |entries|
  {
    if |entries| == 0 {
      assert Sections(entries, first, wrap) == [];
    } else {
      SectionsCons(entries, first, wrap);
      SplitEachConcat(Section(first, entries[0], wrap), Sections(entries[1..], first + 1, wrap), '\n');
      SectionReadsBack(first, entries[0], wrap);
      SectionsReadBack(entries[1..], first + 1, wrap);
    }
  }

  /** The header items are single lines. */
  lemma HeaderSingleLines(iso: string, count: nat, query: string)
    requires '\n' !in iso && '\n' !in query
    ensures SingleLines(HeaderLines(iso, count, query))
  {
    var front := ["---", "date: " + iso, "type: paper-digest", "source: arxiv", "paper_count: " + Decimal(count)];
    assert SingleLines(front) by {
      DigitsHaveNoBreak(Decimal(count));
    }
    var title := ["# 论文日报 " + iso + "（社区版）"];
    var close := ["> [!note] 查询词：`" + query + "`", ""];
    assert SingleLines(title) && SingleLines(close) by {
      FixedHeaderSingleLines();
    }
    FixedHeaderSingleLines();
    SingleLinesOfConcatenation(front, DigestFrontMatterTail);
    SingleLinesOfConcatenation(front + DigestFrontMatterTail, title);
    SingleLinesOfConcatenation(front + DigestFrontMatterTail + title, DigestInfo);
    SingleLinesOfConcatenation(front + DigestFrontMatterTail + title + DigestInfo, close);
  }

  lemma FixedHeaderSingleLines()
    ensures SingleLines(DigestFrontMatterTail) && SingleLines(DigestInfo)
    ensures '\n' !in "# 论文日报 " && '\n' !in "（社区版）" && '\n' !in "> [!note] 查询词：`"
  {
    InfoSingleLines();
  }

  lemma InfoSingleLines()
    ensures SingleLines(DigestInfo)
  {
  }

  /** Items none of which holds a line break. */
  predicate SingleLines(items: seq<string>) {
    forall j :: 0 <= j < |items| ==> '\n' !in items[j]
  }

  lemma SingleLinesOfConcatenation(a: seq<string>, b: seq<string>)
    requires SingleLines(a) && SingleLines(b)
    ensures SingleLines(a + b)
  {
    assert forall j :: |a| <= j < |a + b| ==> (a + b)[j] == b[j - |a|];
  }

  /** Splitting the rendered digest on "\n" gives its text lines: header,
      then the warning or the sections with each callout line on its own. */
  lemma DigestReadsBack(iso: string, entries: seq<Entry>, query: string, wrap: string -> seq<string>)
    requires '\n' !in iso && '\n' !in query && SingleLineWrap(wrap)
    requires forall k :: 0 <= k < |entries| ==> SingleLineEntry(entries[k])
    ensures Split(RenderDigest(iso, entries, query, wrap), '\n') == DigestText(iso, entries, query, wrap)
  {
    var lines := DigestLines(iso, entries, query, wrap);
    var header := HeaderLines(iso, |entries|, query);
    HeaderSingleLines(iso, |entries|, query);
    assert lines == header + lines[HeaderSize..];
    if |entries| == 0 {
      assert forall j :: 0 <= j < |lines| ==> '\n' !in lines[j];
      SplitTerminated(lines);
      assert lines + [""] == header + (NoResults + [""]);
    } else {
      var body := Sections(entries, 1, wrap);
      assert "\n" == ['\n'];
      SplitJoinEach(lines, '\n');
      SplitEachConcat(header, body, '\n');
      SplitEachPlain(header, '\n');
      SectionsReadBack(entries, 1, wrap);
    }
  }

  // ---------------------------------------------------------------------
  // main

  datatype DigestArgs = DigestArgs(day: int, query: string, force: bool)

  /** "<ISO date>.md". */
  function DigestName(day: int): (name: string)
    requires IsOrdinal(day)
    ensures StartsWith(name, Iso(day)) && EndsWith(name, ".md")
    ensures |name| == |Iso(day)| + 3
  {
    Iso(day) + ".md"
  }

  /** `main` after argument parsing. `fetched` is what fetching gave: the
      extracted entries, or the message of the error it raised. */
  function RunDigest(args: DigestArgs, dir: Dir, fetched: Result<seq<RawEntry>, string>,
                     wrap: string -> seq<string>): (o: Outcome)
    requires IsOrdinal(args.day) && WellFormed(dir)
    ensures o.Skipped? <==> DigestName(args.day) in dir.files && !args.force
    ensures o.Skipped? ==> o.name == DigestName(args.day)
    ensures o.Failed? <==> !o.Skipped? && fetched.Err?
    ensures o.Failed? ==> o.error == fetched.error
    ensures o.Generated? ==> o.name == DigestName(args.day) && EndsWith(o.content, "\n")
    ensures o.Generated? ==> fetched.Ok? && o.content == RenderDigest(Iso(args.day), Entries(fetched.value), args.query, wrap)
  {
    var name := DigestName(args.day);
    if name in dir.files && !args.force then Skipped(name)
    else
      match fetched
      case Err(e) => Failed(e)
      case Ok(raw) => Generated(name, RenderDigest(Iso(args.day), Entries(raw), args.query, wrap))
  }

  /** A skipped or failed run leaves the directory as it was and, when it
      failed, exits with status 1. */
  lemma DigestWritesOnlyOnSuccess(args: DigestArgs, dir: Dir, fetched: Result<seq<RawEntry>, string>,
                                  wrap: string -> seq<string>)
    requires IsOrdinal(args.day) && WellFormed(dir)
    ensures var o := RunDigest(args, dir, fetched, wrap);
            && (Persist(dir, o) != dir ==> fetched.Ok? && (args.force || DigestName(args.day) !in dir.files))
            && (ExitCode(o) == 1 <==> fetched.Err? && (args.force || DigestName(args.day) !in dir.files))
  {
  }

  /** Once written, the digest of a day is not fetched again without
      `--force`: whatever a new fetch would give, the run skips and the
      directory stays as it is. */
  lemma DigestSecondRunSkips(args: DigestArgs, dir: Dir, fetched: Result<seq<RawEntry>, string>,
                             again: Result<seq<RawEntry>, string>, wrap: string -> seq<string>)
    requires IsOrdinal(args.day) && WellFormed(dir)
    requires RunDigest(args, dir, fetched, wrap).Generated?
    ensures var dir' := Persist(dir, RunDigest(args, dir, fetched, wrap));
            && WellFormed(dir')
            && RunDigest(args.(force := false), dir', again, wrap) == Skipped(DigestName(args.day))
            && Persist(dir', RunDigest(args.(force := false), dir', again, wrap)) == dir'
  {
  }

  /** The entries built from the fetched ones, in order. */
  function Entries(raws: seq<RawEntry>): (entries: seq<Entry>)
    ensures |entries| == |raws|
    ensures forall k :: 0 <= k < |raws| ==> entries[k] == MakeEntry(raws[k])
  {
    seq(|raws|, k requires 0 <= k < |raws| => MakeEntry(raws[k]))
  }

  /** A written digest, read back line by line, reports as `paper_count`
      the number of fetched entries and numbers one section per fetched
      entry, in order, under its title. It needs single-line fields and
      query, as Atom fields and command-line queries normally are. */
  lemma WrittenDigestReadsBack(args: DigestArgs, dir: Dir, fetched: Result<seq<RawEntry>, string>,
                               wrap: string -> seq<string>)
    requires IsOrdinal(args.day) && WellFormed(dir)
    requires fetched.Ok? && (args.force || DigestName(args.day) !in dir.files)
    requires '\n' !in args.query && SingleLineWrap(wrap)
    requires forall k :: 0 <= k < |fetched.value| ==> SingleLineEntry(MakeEntry(fetched.value[k]))
    ensures var o := RunDigest(args, dir, fetched, wrap);
            var ls := Split(o.content, '\n');
            && o.Generated?
            && |ls| >= HeaderSize
            && StartsWith(ls[4], "paper_count: ") && IsDigits(ls[4][13..])
            && DigitsValue(ls[4][13..]) == |fetched.value|
            && NumberedHeadings(ls) == HeadingsOf(Entries(fetched.value), 1)
  {
    var entries := Entries(fetched.value);
    var o := RunDigest(args, dir, fetched, wrap);
    assert o.content == RenderDigest(Iso(args.day), entries, args.query, wrap);
    DigestReadsBack(Iso(args.day), entries, args.query, wrap);
    CountReadsBack(DigestText(Iso(args.day), entries, args.query, wrap), |entries|);
  }

  /** The `paper_count` line reads back as the count. */
  lemma CountReadsBack(ls: seq<string>, count: nat)
    requires |ls| > 4 && ls[4] == "paper_count: " + Decimal(count)
    ensures StartsWith(ls[4], "paper_count: ") && IsDigits(ls[4][13..]) && DigitsValue(ls[4][13..]) == count
  {
    assert ls[4][13..] == Decimal(count);
    DecimalRoundTrip(count);
  }
}
