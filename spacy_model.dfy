/** Post-processing of the rule-based incident classifier: the label/pattern table the
    matcher is built from, the reduction of matches and spans to 0/1 flags, the per-row
    and per-column writes into the incident frame, and the HTML rendering of matches.
    The spaCy engine itself is opaque: a matcher is a function from a document (its
    token texts) to `(label, start, end)` triples, and a trained pipeline is a function
    from a text to the labels of its `sc` spans. */
module SpacyModel {
  import opened Common

  const BOARDED: string := "BOARDED"
  const HIJACKED: string := "HIJACKED"
  const HOSTAGES_TAKEN: string := "HOSTAGES_TAKEN"
  const CREW_ASSAULTED: string := "CREW_ASSAULTED"
  /** The temporary column `model_interpreter` stores the flag tuples in. */
  const RESULT: string := "RESULT"

  /** The five column names are pairwise distinct. */
  lemma ColumnNamesDistinct()
    ensures BOARDED != HIJACKED && BOARDED != HOSTAGES_TAKEN && BOARDED != CREW_ASSAULTED
    ensures HIJACKED != HOSTAGES_TAKEN && HIJACKED != CREW_ASSAULTED && HOSTAGES_TAKEN != CREW_ASSAULTED
    ensures RESULT != BOARDED && RESULT != HIJACKED && RESULT != HOSTAGES_TAKEN && RESULT != CREW_ASSAULTED
  {
  }

  // ---------------------------------------------------------------------------------
  // generate_matcher: which pattern is registered under which label
  // ---------------------------------------------------------------------------------

  /** The token patterns of `generate_matcher`, by name; what each pattern matches is
      spaCy's business and is not modelled. */
  datatype Pattern =
    | BoardedPattern(number: nat)   // boarded_pattern, boarded_pattern2 .. boarded_pattern17
    | HijackPattern(number: nat)    // hijack_pattern, hijack_pattern2
    | HostagePattern
    | CrewAssaultPattern

  /** The patterns passed to `matcher.add('BOARDED', …)`, in order. */
  function BoardedRules(): seq<Pattern> {
    seq(17, k requires 0 <= k < 17 => BoardedPattern(k + 1)) + [HijackPattern(1), HijackPattern(2), HostagePattern]
  }

  /** The registration table: label to the patterns registered under it. */
  function Registrations(): (table: map<string, seq<Pattern>>)
    ensures table.Keys == {BOARDED, HIJACKED, HOSTAGES_TAKEN, CREW_ASSAULTED}
    ensures |table[BOARDED]| == 20
  {
    map[BOARDED := BoardedRules(),
        HIJACKED := [HijackPattern(1), HijackPattern(2)],
        HOSTAGES_TAKEN := [HostagePattern],
        CREW_ASSAULTED := [CrewAssaultPattern]]
  }

  /** Every hijack or hostage pattern is also a boarding pattern. */
  lemma SubLabelsRegisteredUnderBoarded()
    ensures forall p :: p in Registrations()[HIJACKED] ==> p in Registrations()[BOARDED]
    ensures forall p :: p in Registrations()[HOSTAGES_TAKEN] ==> p in Registrations()[BOARDED]
  {
  }

  /** A label fires on a document when one of its registered patterns does; `fires`
      says which patterns the engine finds in that document. */
  predicate Fires(tag: string, fires: Pattern -> bool) {
    tag in Registrations() && exists p :: p in Registrations()[tag] && fires(p)
  }

  /** Whatever the engine finds, a HIJACKED or HOSTAGES_TAKEN match comes with a
      BOARDED match. */
  lemma SubLabelImpliesBoarded(fires: Pattern -> bool)
    ensures Fires(HIJACKED, fires) ==> Fires(BOARDED, fires)
    ensures Fires(HOSTAGES_TAKEN, fires) ==> Fires(BOARDED, fires)
  {
  }

  /** The crew-assault pattern is the one rule not shared with BOARDED. */
  lemma CrewAssaultIsSeparate()
    ensures CrewAssaultPattern in Registrations()[CREW_ASSAULTED]
    ensures CrewAssaultPattern !in Registrations()[BOARDED]
    ensures Fires(CREW_ASSAULTED, p => p == CrewAssaultPattern)
    ensures !Fires(BOARDED, p => p == CrewAssaultPattern)
  {
    assert CrewAssaultPattern in Registrations()[CREW_ASSAULTED];
  }

  // ---------------------------------------------------------------------------------
  // style
  // ---------------------------------------------------------------------------------

  const BoldOpen: string := "<b style='background-color: #fff59d'>"

  /** `style(s, bold)`: the text wrapped in `<text>` tags, and in the highlighting
      `<b>` tag as well when `bold`. */
  function Style(s: string, bold: bool): (r: string)
    ensures |r| == |s| + 13 + (if bold then |BoldOpen| + 4 else 0)
    ensures var inner := if bold then r[|BoldOpen|..|r| - 4] else r;
      inner[..6] == "<text>" && inner[6..|inner| - 7] == s && inner[|inner| - 7..] == "</text>"
    ensures bold ==> r[..|BoldOpen|] == BoldOpen && r[|r| - 4..] == "</b>"
  {
    var blob := "<text>" + s + "</text>";
    if bold then BoldOpen + blob + "</b>" else blob
  }

  /** Inverse of the `<text>` wrapping. */
  function UnwrapText(blob: string): Option<string> {
    if |blob| >= 13 && blob[..6] == "<text>" && blob[|blob| - 7..] == "</text>"
    then Some(blob[6..|blob| - 7])
    else None
  }

  /** Reads a styled blob back as its text and its boldness. */
  function Unstyle(blob: string): Option<(string, bool)> {
    if |blob| >= |BoldOpen| + 4 && blob[..|BoldOpen|] == BoldOpen && blob[|blob| - 4..] == "</b>" then
      match UnwrapText(blob[|BoldOpen|..|blob| - 4])
      case Some(s) => Some((s, true))
      case None => None
    else
      match UnwrapText(blob)
      case Some(s) => Some((s, false))
      case None => None
  }

  lemma UnwrapTextWrap(s: string)
    ensures UnwrapText("<text>" + s + "</text>") == Some(s)
  {
  }

  /** Styling loses nothing: text and boldness can be read back. */
  lemma StyleRoundTrip(s: string, bold: bool)
    ensures Unstyle(Style(s, bold)) == Some((s, bold))
  {
    var plain := "<text>" + s + "</text>";
    UnwrapTextWrap(s);
    var blob := Style(s, bold);
    if bold {
      assert blob[..|BoldOpen|] == BoldOpen;
      assert blob[|blob| - 4..] == "</b>";
      assert blob[|BoldOpen|..|blob| - 4] == plain;
    } else {
      assert blob[1] == 't' != BoldOpen[1];
    }
  }

  /** Consequently distinct (text, boldness) pairs give distinct blobs. */
  lemma StyleInjective(s1: string, b1: bool, s2: string, b2: bool)
    requires Style(s1, b1) == Style(s2, b2)
    ensures s1 == s2 && b1 == b2
  {
    StyleRoundTrip(s1, b1);
    StyleRoundTrip(s2, b2);
  }

  // ---------------------------------------------------------------------------------
  // html_generator
  // ---------------------------------------------------------------------------------

  /** One match of the matcher: its label and the token span `[start, end)`. */
  datatype Match = Match(tag: string, start: int, end: int)

  /** A document, as the texts of its tokens. */
  type Doc = seq<string>

  type Matcher = Doc -> seq<Match>

  /** What the matcher guarantees: every span lies inside the document. */
  predicate WithinDoc(matches: seq<Match>, n: nat) {
    forall j :: 0 <= j < |matches| ==> 0 <= matches[j].start <= matches[j].end <= n
  }

  /** Token `i` lies in some matched span. */
  predicate Covered(matches: seq<Match>, i: int) {
    exists j :: 0 <= j < |matches| && matches[j].start <= i < matches[j].end
  }

  /** The bold marks `html_generator` gives the tokens of a document. */
  function Marks(doc: Doc, matches: seq<Match>): seq<bool> {
    seq(|doc|, i => Covered(matches, i))
  }

  /** Adding matches never clears a mark. */
  lemma {:induction false} CoveredMonotone(a: seq<Match>, b: seq<Match>, i: int)
    requires Covered(a, i)
    ensures Covered(a + b, i)
  {
    var j :| 0 <= j < |a| && a[j].start <= i < a[j].end;
    assert (a + b)[j] == a[j];
  }

  /** The span-marking loop: `state` starts all False and every token of every matched
      span is set to True. */
  method MarkTokens(doc: Doc, matches: seq<Match>) returns (state: seq<bool>)
    requires WithinDoc(matches, |doc|)
    ensures |state| == |doc|
    ensures forall i :: 0 <= i < |doc| ==> (state[i] <==> Covered(matches, i))
  {
    state := seq(|doc|, _ => false);
    for m := 0 to |matches|
      invariant |state| == |doc|
      invariant forall i :: 0 <= i < |doc| ==> (state[i] <==> Covered(matches[..m], i))
    {
      var span := matches[m];
      for i := span.start to span.end
        invariant |state| == |doc|
        invariant forall k :: 0 <= k < |doc| ==>
                    (state[k] <==> Covered(matches[..m], k) || span.start <= k < i)
      {
        state := state[i := true];
      }
      assert matches[..m + 1] == matches[..m] + [span];
      forall k | 0 <= k < |doc|
        ensures Covered(matches[..m + 1], k) <==> Covered(matches[..m], k) || span.start <= k < span.end
      {
        if Covered(matches[..m], k) {
          CoveredMonotone(matches[..m], [span], k);
        }
        if span.start <= k < span.end {
          assert matches[..m + 1][m] == span;
        }
        if Covered(matches[..m + 1], k) && !(span.start <= k < span.end) {
          var j :| 0 <= j < m + 1 && matches[..m + 1][j].start <= k < matches[..m + 1][j].end;
          assert j < m && matches[..m][j] == matches[..m + 1][j];
        }
      }
    }
    assert matches[..|matches|] == matches;
  }

  function StyledTokens(doc: Doc, marks: seq<bool>): seq<string>
    requires |marks| == |doc|
  {
    seq(|doc|, i requires 0 <= i < |doc| => Style(doc[i], marks[i]))
  }

  /** The block appended for one document: its styled tokens joined by spaces, followed
      by a line break, all wrapped in plain `<text>` tags. */
  function Block(doc: Doc, matches: seq<Match>): string {
    Style(Join(" ", StyledTokens(doc, Marks(doc, matches))) + "<br>", false)
  }

  /** The blocks of the first `n` documents, in order. */
  function Page(docs: seq<Doc>, matcher: Matcher, n: nat): string
    requires n <= |docs|
    decreases n
  {
    if n == 0 then "" else Page(docs, matcher, n - 1) + Block(docs[n - 1], matcher(docs[n - 1]))
  }

  /** The page is determined by the first `n` documents alone. */
  lemma {:induction false} PageReadsOnlyPrefix(docs1: seq<Doc>, docs2: seq<Doc>, matcher: Matcher, n: nat)
    requires n <= |docs1| && n <= |docs2| && docs1[..n] == docs2[..n]
    ensures Page(docs1, matcher, n) == Page(docs2, matcher, n)
    decreases n
  {
    if n > 0 {
      assert docs1[n - 1] == docs1[..n][n - 1] == docs2[..n][n - 1] == docs2[n - 1];
      assert docs1[..n - 1] == docs1[..n][..n - 1] && docs2[..n - 1] == docs2[..n][..n - 1];
      PageReadsOnlyPrefix(docs1, docs2, matcher, n - 1);
    }
  }

  /** Every block is a plain `<text>` blob whose content ends in the line break. */
  lemma BlockIsPlainText(doc: Doc, matches: seq<Match>)
    ensures Unstyle(Block(doc, matches)) == Some((Join(" ", StyledTokens(doc, Marks(doc, matches))) + "<br>", false))
  {
    StyleRoundTrip(Join(" ", StyledTokens(doc, Marks(doc, matches))) + "<br>", false);
  }

  /** `html_generator(g, matcher, n)`: draws `n` documents from the generator `g`
      (here the sequence of documents it still has to yield) and appends one block per
      document; `rest` is what `g` still yields afterwards. Drawing from an exhausted
      generator raises StopIteration, and leaves it drained. The inner
      `for i in range(start, end)` reuses the name `i`, which does not disturb the outer
      `range(n)` loop: here the two counters have their own names. */
  method HtmlGenerator(docs: seq<Doc>, matcher: Matcher, n: int) returns (r: Result<string>, rest: seq<Doc>)
    requires forall k :: 0 <= k < |docs| ==> WithinDoc(matcher(docs[k]), |docs[k]|)
    ensures r.Err? <==> n > |docs|
    ensures r.Err? ==> r.error == StopIteration && rest == []
    ensures r.Ok? ==> r.value == Page(docs, matcher, if n < 0 then 0 else n)
    ensures r.Ok? ==> rest == docs[(if n < 0 then 0 else n)..]
  {
    var blob := "";
    var count := 0;
    rest := docs;
    while count < n
      invariant 0 <= count <= |docs|
      invariant n >= 0 ==> count <= n
      invariant n < 0 ==> count == 0
      invariant rest == docs[count..]
      invariant blob == Page(docs, matcher, count)
    {
      if rest == [] {
        assert count == |docs| < n;
        return Err(StopIteration), rest;
      }
      var doc := rest[0];
      rest := rest[1..];
      var matches := matcher(doc);
      var state := MarkTokens(doc, matches);
      assert state == Marks(doc, matches);
      var tokens := seq(|doc|, i requires 0 <= i < |doc| => Style(doc[i], state[i]));
      assert tokens == StyledTokens(doc, Marks(doc, matches));
      var block := Style(Join(" ", tokens) + "<br>", false);
      assert block == Block(docs[count], matcher(docs[count]));
      blob := blob + block;
      count := count + 1;
    }
    return Ok(blob), rest;
  }

  // ---------------------------------------------------------------------------------
  // apply_nlp
  // ---------------------------------------------------------------------------------

  /** `np.where(b, 1, 0)` and the `= 1` assignments: 1 for true, 0 for false. */
  function Indicator(b: bool): int {
    if b then 1 else 0
  }

  /** The tuple (boarded, hijacked, hostages, assault). */
  datatype Flags = Flags(boarded: int, hijacked: int, hostages: int, assault: int)

  /** The label occurs at some position of the span labels. */
  predicate Carries(labels: seq<string>, tag: string) {
    exists k :: 0 <= k < |labels| && labels[k] == tag
  }

  /** The flags of a list of span labels: each is 1 when some span carries its label
      and 0 otherwise. */
  function LabelFlags(labels: seq<string>): (f: Flags)
    ensures f.boarded == (if Carries(labels, BOARDED) then 1 else 0)
    ensures f.hijacked == (if Carries(labels, HIJACKED) then 1 else 0)
    ensures f.hostages == (if Carries(labels, HOSTAGES_TAKEN) then 1 else 0)
    ensures f.assault == (if Carries(labels, CREW_ASSAULTED) then 1 else 0)
  {
    Flags(Indicator(BOARDED in labels), Indicator(HIJACKED in labels),
          Indicator(HOSTAGES_TAKEN in labels), Indicator(CREW_ASSAULTED in labels))
  }

  /** `apply_nlp`: a loop over the spans (given by their labels) that raises each flag
      whose label it meets. */
  method ApplyNlp(labels: seq<string>) returns (f: Flags)
    ensures f == LabelFlags(labels)
  {
    var boarded, hijacked, hostages, assault := 0, 0, 0, 0;
    for k := 0 to |labels|
      invariant boarded == Indicator(BOARDED in labels[..k])
      invariant hijacked == Indicator(HIJACKED in labels[..k])
      invariant hostages == Indicator(HOSTAGES_TAKEN in labels[..k])
      invariant assault == Indicator(CREW_ASSAULTED in labels[..k])
    {
      assert labels[..k + 1] == labels[..k] + [labels[k]];
      if labels[k] == BOARDED {
        boarded := 1;
      }
      if labels[k] == HIJACKED {
        hijacked := 1;
      }
      if labels[k] == HOSTAGES_TAKEN {
        hostages := 1;
      }
      if labels[k] == CREW_ASSAULTED {
        assault := 1;
      }
    }
    assert labels[..|labels|] == labels;
    f := Flags(boarded, hijacked, hostages, assault);
  }

  /** The flags depend only on which labels occur: not on span order nor on repeats. */
  lemma FlagsIgnoreOrder(a: seq<string>, b: seq<string>)
    requires forall x :: x in a <==> x in b
    ensures LabelFlags(a) == LabelFlags(b)
  {
  }

  /** Spans with other labels change nothing. */
  lemma {:induction false} OtherLabelsIgnored(labels: seq<string>, other: string)
    requires other !in {BOARDED, HIJACKED, HOSTAGES_TAKEN, CREW_ASSAULTED}
    ensures LabelFlags(labels + [other]) == LabelFlags(labels)
    ensures LabelFlags([other] + labels) == LabelFlags(labels)
  {
  }

  /** Every flag of a tuple is 0 or 1. */
  lemma FlagsAreBinary(labels: seq<string>)
    ensures var f := LabelFlags(labels);
      f.boarded in {0, 1} && f.hijacked in {0, 1} && f.hostages in {0, 1} && f.assault in {0, 1}
  {
  }

  // ---------------------------------------------------------------------------------
  // The incident frame and the writes of custom_matcher and model_interpreter
  // ---------------------------------------------------------------------------------

  /** A cell of the frame. An absent cell is NaN. */
  datatype Cell = Text(text: string) | Number(value: int) | Tuple(flags: Flags)

  /** A column: row label to cell; labels without an entry hold NaN. */
  type Column = map<int, Cell>

  function ColumnOf(columns: map<string, Column>, name: string): Column {
    if name in columns then columns[name] else map[]
  }

  /** The labels of the matches, as `matches_str` lists them. */
  function MatchLabels(matches: seq<Match>): (labels: seq<string>)
    ensures |labels| == |matches|
    ensures forall k :: 0 <= k < |matches| ==> labels[k] == matches[k].tag
  {
    seq(|matches|, k requires 0 <= k < |matches| => matches[k].tag)
  }

  /** Some match carries the label. */
  predicate Occurs(matches: seq<Match>, tag: string) {
    exists k :: 0 <= k < |matches| && matches[k].tag == tag
  }

  /** The row index of the frame after `.at[ix, …]` writes to labels `0 .. n-1`: each
      label not yet present is appended. */
  function Enlarged(index: seq<int>, n: nat): seq<int>
    decreases n
  {
    if n == 0 then index
    else
      var e := Enlarged(index, n - 1);
      if n - 1 in e then e else e + [n - 1]
  }

  predicate Distinct(index: seq<int>) {
    forall i, j :: 0 <= i < j < |index| ==> index[i] != index[j]
  }

  /** Enlarging keeps the old rows in place, adds exactly the missing labels and keeps
      the labels distinct. */
  lemma {:induction false} EnlargedRows(index: seq<int>, n: nat)
    ensures |Enlarged(index, n)| >= |index| && Enlarged(index, n)[..|index|] == index
    ensures forall l :: l in Enlarged(index, n) <==> l in index || 0 <= l < n
    ensures Distinct(index) ==> Distinct(Enlarged(index, n))
    decreases n
  {
    if n > 0 {
      EnlargedRows(index, n - 1);
      var e := Enlarged(index, n - 1);
      if n - 1 !in e {
        assert (e + [n - 1])[..|index|] == e[..|index|];
      }
    }
  }

  /** The columns after the writes of `custom_matcher` for the first `n` documents. */
  function Written(columns: map<string, Column>, docs: seq<Doc>, matcher: Matcher, n: nat): map<string, Column>
    requires n <= |docs|
    decreases n
  {
    if n == 0 then columns
    else
      var c := Written(columns, docs, matcher, n - 1);
      var labels := MatchLabels(matcher(docs[n - 1]));
      var c1 := c[BOARDED := ColumnOf(c, BOARDED)[n - 1 := Number(Indicator(BOARDED in labels))]];
      c1[HIJACKED := ColumnOf(c1, HIJACKED)[n - 1 := Number(Indicator(HIJACKED in labels))]]
  }

  /** The written column agrees with the old one outside the rows `0 .. n-1`. */
  ghost predicate SameOutside(before: Column, after: Column, n: nat) {
    forall l :: !(0 <= l < n) ==> (l in after <==> l in before) && (l in before ==> after[l] == before[l])
  }

  /** The cell `custom_matcher` writes for document `ix` in the column of `tag`. */
  function FlagCell(docs: seq<Doc>, matcher: Matcher, ix: nat, tag: string): Cell
    requires ix < |docs|
  {
    Number(if Occurs(matcher(docs[ix]), tag) then 1 else 0)
  }

  /** Document `n - 1` writes row `n - 1` of its flag column, and that column only changes there. */
  lemma WrittenStep(columns: map<string, Column>, docs: seq<Doc>, matcher: Matcher, n: nat, tag: string)
    requires 0 < n <= |docs| && (tag == BOARDED || tag == HIJACKED)
    ensures ColumnOf(Written(columns, docs, matcher, n), tag)
         == ColumnOf(Written(columns, docs, matcher, n - 1), tag)[n - 1 := FlagCell(docs, matcher, n - 1, tag)]
  {
    ColumnNamesDistinct();
    var labels := MatchLabels(matcher(docs[n - 1]));
    assert tag in labels <==> Occurs(matcher(docs[n - 1]), tag);
  }

  /** Rows `0 .. n-1` of a flag column hold the documents' flags; other rows are as they were. */
  lemma {:induction false} WrittenColumn(columns: map<string, Column>, docs: seq<Doc>, matcher: Matcher, n: nat, tag: string)
    requires n <= |docs| && (tag == BOARDED || tag == HIJACKED)
    ensures var col := ColumnOf(Written(columns, docs, matcher, n), tag);
      forall ix :: 0 <= ix < n ==> ix in col && col[ix] == FlagCell(docs, matcher, ix, tag)
    ensures SameOutside(ColumnOf(columns, tag), ColumnOf(Written(columns, docs, matcher, n), tag), n)
    decreases n
  {
    if n > 0 {
      WrittenColumn(columns, docs, matcher, n - 1, tag);
      WrittenStep(columns, docs, matcher, n, tag);
      ColumnStep(ColumnOf(columns, tag), ColumnOf(Written(columns, docs, matcher, n - 1), tag),
                 ColumnOf(Written(columns, docs, matcher, n), tag), n, FlagCell(docs, matcher, n - 1, tag));
    }
  }

  /** Writing row `n - 1` keeps the other rows and leaves the column as it was outside `0 .. n-1`. */
  lemma ColumnStep(before: Column, prev: Column, cur: Column, n: nat, v: Cell)
    requires n > 0 && cur == prev[n - 1 := v] && SameOutside(before, prev, n - 1)
    ensures n - 1 in cur && cur[n - 1] == v
    ensures forall ix :: 0 <= ix < n - 1 && ix in prev ==> ix in cur && cur[ix] == prev[ix]
    ensures SameOutside(before, cur, n)
  {
  }

  /** No column other than BOARDED and HIJACKED is written. */
  lemma {:induction false} WrittenOthers(columns: map<string, Column>, docs: seq<Doc>, matcher: Matcher, n: nat, name: string)
    requires n <= |docs| && name != BOARDED && name != HIJACKED
    ensures var w := Written(columns, docs, matcher, n);
      (name in w <==> name in columns) && (name in columns ==> w[name] == columns[name])
    decreases n
  {
    if n > 0 {
      WrittenOthers(columns, docs, matcher, n - 1, name);
    }
  }

  /** What `custom_matcher` writes: row `ix` of BOARDED and of HIJACKED is 1 when the
      label occurs among that document's matches and 0 otherwise; other rows of these
      two columns and every other column, HOSTAGES_TAKEN and CREW_ASSAULTED included,
      are left as they were. */
  lemma WrittenCells(columns: map<string, Column>, docs: seq<Doc>, matcher: Matcher, n: nat)
    requires n <= |docs|
    ensures var w := Written(columns, docs, matcher, n);
      forall ix :: 0 <= ix < n ==>
        ix in ColumnOf(w, BOARDED) && ColumnOf(w, BOARDED)[ix] == Number(if Occurs(matcher(docs[ix]), BOARDED) then 1 else 0)
    ensures var w := Written(columns, docs, matcher, n);
      forall ix :: 0 <= ix < n ==>
        ix in ColumnOf(w, HIJACKED) && ColumnOf(w, HIJACKED)[ix] == Number(if Occurs(matcher(docs[ix]), HIJACKED) then 1 else 0)
    ensures var w := Written(columns, docs, matcher, n);
      SameOutside(ColumnOf(columns, BOARDED), ColumnOf(w, BOARDED), n) &&
      SameOutside(ColumnOf(columns, HIJACKED), ColumnOf(w, HIJACKED), n)
    ensures var w := Written(columns, docs, matcher, n);
      forall name :: name != BOARDED && name != HIJACKED ==>
        (name in w <==> name in columns) && (name in columns ==> w[name] == columns[name])
  {
    WrittenColumn(columns, docs, matcher, n, BOARDED);
    WrittenColumn(columns, docs, matcher, n, HIJACKED);
    assert forall ix, tag :: 0 <= ix < n ==>
      FlagCell(docs, matcher, ix, tag) == Number(if Occurs(matcher(docs[ix]), tag) then 1 else 0);
    forall name | name != BOARDED && name != HIJACKED
      ensures var w := Written(columns, docs, matcher, n);
        (name in w <==> name in columns) && (name in columns ==> w[name] == columns[name])
    {
      WrittenOthers(columns, docs, matcher, n, name);
    }
  }

  /** The incident data frame: the row labels in order and the columns by name. */
  class Frame {
    var index: seq<int>
    var columns: map<string, Column>

    /** Row labels are distinct and every cell belongs to a row of the index. */
    ghost predicate Valid()
      reads this
    {
      Distinct(index) &&
      forall name :: name in columns ==> forall l :: l in columns[name] ==> l in index
    }

    constructor (index: seq<int>, columns: map<string, Column>)
      requires Distinct(index)
      requires forall name :: name in columns ==> forall l :: l in columns[name] ==> l in index
      ensures Valid()
      ensures this.index == index && this.columns == columns
    {
      this.index := index;
      this.columns := columns;
    }

    /** `data_df.at[row, name] = v`: a missing column is created (NaN elsewhere) and a
        missing row label is appended to the index (NaN elsewhere). */
    method SetCell(row: int, name: string, v: Cell)
      requires Valid()
      modifies this
      ensures Valid()
      ensures columns == old(columns)[name := ColumnOf(old(columns), name)[row := v]]
      ensures index == if row in old(index) then old(index) else old(index) + [row]
    {
      if row !in index {
        index := index + [row];
      }
      columns := columns[name := ColumnOf(columns, name)[row := v]];
    }

    /** `custom_matcher(data_df, docs, matcher)`: for each document `ix`, writes the
        BOARDED and HIJACKED flags of its matches into row label `ix`. */
    method CustomMatcher(docs: seq<Doc>, matcher: Matcher)
      requires Valid()
      modifies this
      ensures Valid()
      ensures index == Enlarged(old(index), |docs|)
      ensures columns == Written(old(columns), docs, matcher, |docs|)
    {
      for ix := 0 to |docs|
        invariant Valid()
        invariant index == Enlarged(old(index), ix)
        invariant columns == Written(old(columns), docs, matcher, ix)
      {
        var matches := matcher(docs[ix]);
        var labels := MatchLabels(matches);
        SetCell(ix, BOARDED, Number(Indicator(BOARDED in labels)));
        SetCell(ix, HIJACKED, Number(Indicator(HIJACKED in labels)));
      }
    }

    /** `model_interpreter(data_df, column_name, nlp)`; the returned error is the
        exception that escapes (the frame is then untouched). */
    method ModelInterpreter(columnName: string, nlp: string -> seq<string>) returns (error: Option<PyError>)
      requires Valid()
      modifies this
      ensures Valid()
      ensures index == old(index)
      ensures error == InputError(old(columns), old(index), columnName)
      ensures error.Some? ==> columns == old(columns)
      ensures error.None? ==> columns == Interpreted(old(columns), old(index), columnName, nlp)
    {
      if columnName !in columns {
        return Some(KeyError);
      }
      var applied := ApplyToColumn(columns[columnName], index, nlp);
      if applied.Err? {
        return Some(applied.error);
      }
      var result := applied.value;
      columns := columns[RESULT := result];
      columns := columns[BOARDED := Split(columns[RESULT], 0)];
      columns := columns[HIJACKED := Split(columns[RESULT], 1)];
      columns := columns[HOSTAGES_TAKEN := Split(columns[RESULT], 2)];
      columns := columns[CREW_ASSAULTED := Split(columns[RESULT], 3)];
      columns := columns - {RESULT};
      assert columns == Interpreted(old(columns), index, columnName, nlp);
      InterpretedInIndex(old(columns), index, columnName, nlp);
      return None;
    }
  }

  /** `data_df[column_name].apply(apply_nlp, args=[nlp])`: the flag tuple of every row,
      in index order; a row that is not text makes the pipeline raise ValueError. */
  method ApplyToColumn(source: Column, rows: seq<int>, nlp: string -> seq<string>) returns (r: Result<Column>)
    ensures r.Err? <==> exists l :: l in rows && !IsText(source, l)
    ensures r.Err? ==> r.error == ValueError
    ensures r.Ok? ==> (forall l :: l in rows ==> IsText(source, l)) && r.value == ResultColumn(source, rows, nlp)
  {
    var result: Column := map[];
    for i := 0 to |rows|
      invariant forall l :: l in rows[..i] ==> IsText(source, l)
      invariant forall l :: l in result <==> l in rows[..i]
      invariant forall l :: l in result ==> IsText(source, l) && result[l] == Tuple(LabelFlags(nlp(source[l].text)))
    {
      var row := rows[i];
      if row !in source || !source[row].Text? {
        assert row in rows && !IsText(source, row);
        return Err(ValueError);
      }
      var f := ApplyNlp(nlp(source[row].text));
      assert rows[..i + 1] == rows[..i] + [row];
      result := result[row := Tuple(f)];
    }
    assert rows[..|rows|] == rows;
    ghost var expected := ResultColumn(source, rows, nlp);
    assert forall l :: l in result <==> l in expected;
    assert forall l :: l in result ==> result[l] == expected[l];
    assert result == expected;
    return Ok(result);
  }

  /** Every cell `model_interpreter` leaves belongs to a row of the index. */
  lemma InterpretedInIndex(columns: map<string, Column>, index: seq<int>, name: string, nlp: string -> seq<string>)
    requires InputError(columns, index, name).None?
    requires forall c :: c in columns ==> forall l :: l in columns[c] ==> l in index
    ensures var w := Interpreted(columns, index, name, nlp);
      forall c :: c in w ==> forall l :: l in w[c] ==> l in index
  {
  }

  /** The cell holds text that the pipeline accepts. */
  predicate IsText(column: Column, row: int) {
    row in column && column[row].Text?
  }

  /** The exception `model_interpreter` raises: KeyError for a missing column, and the
      pipeline's ValueError for a row whose cell is not text (NaN included). */
  function InputError(columns: map<string, Column>, index: seq<int>, name: string): (e: Option<PyError>)
    ensures e.None? <==> name in columns && forall l :: l in index ==> IsText(columns[name], l)
  {
    if name !in columns then Some(KeyError)
    else if exists l :: l in index && !IsText(columns[name], l) then Some(ValueError)
    else None
  }

  /** The RESULT column: each row's flag tuple. */
  function ResultColumn(source: Column, index: seq<int>, nlp: string -> seq<string>): Column
    requires forall l :: l in index ==> IsText(source, l)
  {
    map l | l in index :: assert IsText(source, l); Tuple(LabelFlags(nlp(source[l].text)))
  }

  /** Component `k` of a flag tuple, as `.str[k]` reads it. */
  function Component(cell: Cell, k: nat): Option<int> {
    match cell
    case Tuple(f) =>
      if k == 0 then Some(f.boarded)
      else if k == 1 then Some(f.hijacked)
      else if k == 2 then Some(f.hostages)
      else if k == 3 then Some(f.assault)
      else None
    case _ => None
  }

  /** `np.where(data_df['RESULT'].str[k] == 1, 1, 0)`. */
  function Split(result: Column, k: nat): Column {
    map l | l in result :: Number(if Component(result[l], k) == Some(1) then 1 else 0)
  }

  /** The columns after `model_interpreter` succeeds. */
  function Interpreted(columns: map<string, Column>, index: seq<int>, name: string, nlp: string -> seq<string>): map<string, Column>
    requires InputError(columns, index, name).None?
  {
    var r := ResultColumn(columns[name], index, nlp);
    columns[RESULT := r][BOARDED := Split(r, 0)][HIJACKED := Split(r, 1)]
           [HOSTAGES_TAKEN := Split(r, 2)][CREW_ASSAULTED := Split(r, 3)] - {RESULT}
  }

  /** Splitting the RESULT column: component `k` of every row's tuple, which is 0 or 1
      already, is copied unchanged. */
  lemma SplitResult(source: Column, index: seq<int>, nlp: string -> seq<string>)
    requires forall l :: l in index ==> IsText(source, l)
    ensures var r := ResultColumn(source, index, nlp);
      forall l :: (l in Split(r, 0) <==> l in index) && (l in Split(r, 1) <==> l in index) &&
                  (l in Split(r, 2) <==> l in index) && (l in Split(r, 3) <==> l in index)
    ensures var r := ResultColumn(source, index, nlp);
      forall l :: l in index ==>
        var f := LabelFlags(nlp(source[l].text));
        Split(r, 0)[l] == Number(f.boarded) && Split(r, 1)[l] == Number(f.hijacked) &&
        Split(r, 2)[l] == Number(f.hostages) && Split(r, 3)[l] == Number(f.assault)
  {
  }

  /** What `model_interpreter` leaves: the four label columns hold, on every row, the
      corresponding component of that row's flag tuple; RESULT is gone; every other
      column is untouched. */
  lemma InterpretedColumns(columns: map<string, Column>, index: seq<int>, name: string, nlp: string -> seq<string>)
    requires InputError(columns, index, name).None?
    ensures var w := Interpreted(columns, index, name, nlp);
      RESULT !in w &&
      BOARDED in w && HIJACKED in w && HOSTAGES_TAKEN in w && CREW_ASSAULTED in w
    ensures var w := Interpreted(columns, index, name, nlp);
      forall l :: (l in w[BOARDED] <==> l in index) && (l in w[HIJACKED] <==> l in index) &&
                  (l in w[HOSTAGES_TAKEN] <==> l in index) && (l in w[CREW_ASSAULTED] <==> l in index)
    ensures var w := Interpreted(columns, index, name, nlp);
      forall l :: l in index ==>
        var f := LabelFlags(nlp(columns[name][l].text));
        w[BOARDED][l] == Number(f.boarded) && w[HIJACKED][l] == Number(f.hijacked) &&
        w[HOSTAGES_TAKEN][l] == Number(f.hostages) && w[CREW_ASSAULTED][l] == Number(f.assault)
  {
    InterpretedLabelColumns(columns, index, name, nlp);
    SplitResult(columns[name], index, nlp);
  }

  /** After `model_interpreter` the four label columns are the four splits of RESULT, which is gone. */
  lemma InterpretedLabelColumns(columns: map<string, Column>, index: seq<int>, name: string, nlp: string -> seq<string>)
    requires InputError(columns, index, name).None?
    ensures name in columns && forall l :: l in index ==> IsText(columns[name], l)
    ensures var w := Interpreted(columns, index, name, nlp);
      var r := ResultColumn(columns[name], index, nlp);
      RESULT !in w && BOARDED in w && HIJACKED in w && HOSTAGES_TAKEN in w && CREW_ASSAULTED in w &&
      w[BOARDED] == Split(r, 0) && w[HIJACKED] == Split(r, 1) &&
      w[HOSTAGES_TAKEN] == Split(r, 2) && w[CREW_ASSAULTED] == Split(r, 3)
  {
    ColumnNamesDistinct();
  }

  /** `model_interpreter` touches no column other than RESULT and the four label
      columns. */
  lemma InterpretedKeepsOtherColumns(columns: map<string, Column>, index: seq<int>, name: string, nlp: string -> seq<string>)
    requires InputError(columns, index, name).None?
    ensures var w := Interpreted(columns, index, name, nlp);
      forall c :: c != RESULT && c != BOARDED && c != HIJACKED && c != HOSTAGES_TAKEN && c != CREW_ASSAULTED ==>
        (c in w <==> c in columns) && (c in w ==> w[c] == columns[c])
  {
  }
}
