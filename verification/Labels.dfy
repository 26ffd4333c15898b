/** Link labels written into a rendered box tree (src/mail/html_stage2.go). */
module Labels {
  import opened Mail

  datatype Role = Block | Table | Inline | Text

  /** A layout box. `href` is the sanitized link target of the box's element, if it has one. */
  datatype Box = Box(role: Role, tag: string, href: Option<string>, isLabel: bool, verbatim: bool, text: string, children: seq<Box>)

  /** A field that is a bare URL gives its link; what counts as one is the link scanner's business. */
  type Scanner = string -> Option<string>

  // ---- Label text ----

  function Digits(n: nat): string {
    if n < 10 then [('0' as int + n) as char] else Digits(n / 10) + [('0' as int + n % 10) as char]
  }

  function ValueOf(s: string): int {
    if s == "" then 0 else 10 * ValueOf(s[..|s| - 1]) + (s[|s| - 1] as int - '0' as int)
  }

  /** The number in decimal: digits only, none of them a leading zero, and worth n. */
  lemma {:induction false} DigitsAre(n: nat)
    ensures Digits(n) != "" && ValueOf(Digits(n)) == n
    ensures forall k :: 0 <= k < |Digits(n)| ==> '0' <= Digits(n)[k] <= '9'
    ensures |Digits(n)| > 1 ==> Digits(n)[0] != '0'
  {
    if n < 10 {
      assert Digits(n)[..0] == "" && ValueOf("") == 0;
    } else {
      DigitsAre(n / 10);
      var s := Digits(n);
      assert s[..|s| - 1] == Digits(n / 10);
      assert n / 10 >= 10 || |Digits(n / 10)| == 1;
    }
  }

  function LabelText(n: nat): string {
    "[" + Digits(n) + "]"
  }

  function LabelBox(n: nat): Box {
    Box(Text, "", None, true, false, LabelText(n), [])
  }

  function TextBox(verbatim: bool, s: string): Box {
    Box(Text, "", None, false, verbatim, s, [])
  }

  // ---- Bare URLs in a text ----

  predicate Blank(c: char) {
    c == ' ' || c == '\t' || c == '\n' || c == '\r'
  }

  /** The start of the next field at or after pos. */
  function FieldStart(s: string, pos: nat): (r: nat)
    requires pos <= |s|
    ensures pos <= r <= |s| && (r < |s| ==> !Blank(s[r]))
    decreases |s| - pos
  {
    if pos == |s| || !Blank(s[pos]) then pos else FieldStart(s, pos + 1)
  }

  function FieldEnd(s: string, pos: nat): (r: nat)
    requires pos <= |s|
    ensures pos <= r <= |s| && (pos < |s| && !Blank(s[pos]) ==> pos < r)
    decreases |s| - pos
  {
    if pos == |s| || Blank(s[pos]) then pos else FieldEnd(s, pos + 1)
  }

  /** The first field from pos on that is a bare URL. */
  function FirstURL(url: Scanner, s: string, pos: nat): (r: Option<(nat, nat)>)
    requires pos <= |s|
    ensures r.Some? ==> r.value.0 < r.value.1 <= |s| && url(s[r.value.0..r.value.1]).Some?
    decreases |s| - pos
  {
    var start := FieldStart(s, pos);
    var end := FieldEnd(s, start);
    if start == |s| then None
    else if url(s[start..end]).Some? then Some((start, end))
    else FirstURL(url, s, end)
  }

  /** s[a..b] is a field: blanks or the ends around it, none in it. */
  predicate IsField(s: string, a: nat, b: nat) {
    && a < b <= |s| && (forall k :: a <= k < b ==> !Blank(s[k]))
    && (a == 0 || Blank(s[a - 1])) && (b == |s| || Blank(s[b]))
  }

  lemma {:induction false} BlanksFirst(s: string, pos: nat)
    requires pos <= |s|
    ensures forall k :: pos <= k < FieldStart(s, pos) ==> Blank(s[k])
    decreases |s| - pos
  {
    if pos < |s| && Blank(s[pos]) {
      BlanksFirst(s, pos + 1);
    }
  }

  lemma {:induction false} FieldRuns(s: string, pos: nat)
    requires pos <= |s|
    ensures var r := FieldEnd(s, pos); (r < |s| ==> Blank(s[r])) && forall k :: pos <= k < r ==> !Blank(s[k])
    decreases |s| - pos
  {
    if pos < |s| && !Blank(s[pos]) {
      FieldRuns(s, pos + 1);
    }
  }

  /** The field from start on is the only one that begins between pos and its end. */
  lemma NextField(s: string, pos: nat)
    requires pos <= |s| && (pos == 0 || pos == |s| || Blank(s[pos]))
    ensures var start := FieldStart(s, pos); var end := FieldEnd(s, start);
            && (start < |s| ==> IsField(s, start, end))
            && forall a: nat, b: nat :: IsField(s, a, b) && pos <= a && (start < |s| ==> a < end) ==> start < |s| && a == start && b == end
  {
    var start := FieldStart(s, pos);
    var end := FieldEnd(s, start);
    BlanksFirst(s, pos);
    FieldRuns(s, start);
    forall a: nat, b: nat | IsField(s, a, b) && pos <= a && (start < |s| ==> a < end) ensures start < |s| && a == start && b == end {
      assert !Blank(s[a]);
      assert a >= start;
    }
  }

  /** No field that begins from pos on, before the limit, is a URL. */
  ghost predicate NoneBefore(url: Scanner, s: string, pos: nat, limit: Option<nat>) {
    forall a: nat, b: nat :: IsField(s, a, b) && pos <= a && (limit.Some? ==> a < limit.value) ==> url(s[a..b]).None?
  }

  function StartOf(r: Option<(nat, nat)>): Option<nat> {
    if r.Some? then Some(r.value.0) else None
  }

  /** FirstURL finds the first field from pos on that is a URL, and none only when there is none. */
  lemma {:induction false} FirstURLFirst(url: Scanner, s: string, pos: nat)
    requires pos <= |s| && (pos == 0 || pos == |s| || Blank(s[pos]))
    ensures var r := FirstURL(url, s, pos);
            && (r.Some? ==> pos <= r.value.0 && IsField(s, r.value.0, r.value.1))
            && NoneBefore(url, s, pos, StartOf(r))
    decreases |s| - pos
  {
    var start := FieldStart(s, pos);
    var end := FieldEnd(s, start);
    NextField(s, pos);
    if start < |s| && url(s[start..end]).None? {
      FieldRuns(s, start);
      FirstURLFirst(url, s, end);
    }
  }

  lemma LeadField(s: string, start: nat, end: nat, a: nat, b: nat)
    requires IsField(s, start, end) && IsField(s[..start], a, b)
    ensures IsField(s, a, b) && a < start && s[..start][a..b] == s[a..b]
  {
    var lead := s[..start];
    assert forall k :: 0 <= k < start ==> lead[k] == s[k];
    assert !Blank(lead[b - 1]);
  }

  /** The text before the first URL holds no URL. */
  lemma LeadHasNone(url: Scanner, s: string, start: nat, end: nat)
    requires FirstURL(url, s, 0) == Some((start, end))
    ensures start <= |s| && FirstURL(url, s[..start], 0) == None
  {
    FirstURLFirst(url, s, 0);
    FirstURLFirst(url, s[..start], 0);
    var r := FirstURL(url, s[..start], 0);
    if r.Some? {
      LeadField(s, start, end, r.value.0, r.value.1);
    }
  }

  /** The first field that is a URL; none exactly when no field is one. */
  method FindURL(url: Scanner, s: string) returns (r: Option<(nat, nat)>)
    ensures r == FirstURL(url, s, 0)
    ensures r.Some? ==> IsField(s, r.value.0, r.value.1) && url(s[r.value.0..r.value.1]).Some?
    ensures NoneBefore(url, s, 0, StartOf(r))
  {
    FirstURLFirst(url, s, 0);
    var pos := 0;
    while true
      invariant pos <= |s| && FirstURL(url, s, pos) == FirstURL(url, s, 0)
      decreases |s| - pos
    {
      var start := FieldStart(s, pos);
      if start == |s| {
        return None;
      }
      var end := FieldEnd(s, start);
      if url(s[start..end]).Some? {
        return Some((start, end));
      }
      pos := end;
    }
  }

  // ---- The reading: a tree as one line of items, in document order ----

  /** A link opens, a label, a text leaf. */
  datatype Item = Open(href: string) | Lab(text: string) | Txt(text: string, verbatim: bool)

  predicate IsLink(b: Box) {
    b.tag == "a" && b.href.Some? && b.href.value != ""
  }

  function Reading(b: Box): seq<Item>
    decreases b, 0
  {
    (if IsLink(b) then [Open(b.href.value)] else [])
    + (if b.role != Text then [] else if b.isLabel then [Lab(b.text)] else [Txt(b.text, b.verbatim)])
    + ReadAll(b.children)
  }

  function ReadAll(bs: seq<Box>): seq<Item>
    decreases bs, 1
  {
    if bs == [] then [] else Reading(bs[0]) + ReadAll(bs[1..])
  }

  /** Text boxes are leaves and no links, as the box builder makes them; a label reads as no URL. */
  predicate WellFormed(url: Scanner, b: Box)
    decreases b, 0
  {
    && (b.role == Text ==> b.children == [] && b.tag != "a")
    && (b.isLabel ==> b.role == Text && FirstURL(url, b.text, 0) == None)
    && AllWellFormed(url, b.children)
  }

  predicate AllWellFormed(url: Scanner, bs: seq<Box>)
    decreases bs, 1
  {
    bs == [] || (WellFormed(url, bs[0]) && AllWellFormed(url, bs[1..]))
  }

  // ---- What labelling leaves alone ----

  /** A box tree in document order: boxes open and close, characters between. */
  datatype Piece = Enter(role: Role, tag: string, href: Option<string>) | Leave | Ch(c: char, verbatim: bool)

  predicate AllLabels(bs: seq<Box>) {
    forall i :: 0 <= i < |bs| ==> bs[i].isLabel
  }

  /** An anonymous run that holds nothing but labels. */
  predicate IsRun(b: Box) {
    b.role == Block && b.tag == "" && b.href == None && AllLabels(b.children)
  }

  function Chars(s: string, verbatim: bool): (r: seq<Piece>)
    ensures |r| == |s|
  {
    seq(|s|, i requires 0 <= i < |s| => Ch(s[i], verbatim))
  }

  /** The tree without its labels and the runs made for them. */
  function Trunk(b: Box): seq<Piece>
    decreases b, 0
  {
    if b.isLabel then []
    else if b.role == Text then Chars(b.text, b.verbatim)
    else if IsRun(b) then []
    else [Enter(b.role, b.tag, b.href)] + TrunkAll(b.children) + [Leave]
  }

  function TrunkAll(bs: seq<Box>): seq<Piece>
    decreases bs, 1
  {
    if bs == [] then [] else Trunk(bs[0]) + TrunkAll(bs[1..])
  }

  lemma {:induction false} TrunkConcat(a: seq<Box>, b: seq<Box>)
    ensures TrunkAll(a + b) == TrunkAll(a) + TrunkAll(b)
  {
    if a == [] {
      assert a + b == b;
    } else {
      assert (a + b)[1..] == a[1..] + b;
      TrunkConcat(a[1..], b);
    }
  }

  lemma TrunkOne(b: Box)
    ensures TrunkAll([b]) == Trunk(b)
  {
    assert TrunkAll([b]) == Trunk(b) + TrunkAll([]);
  }

  lemma TrunkCons(b: Box, rest: seq<Box>)
    ensures TrunkAll([b] + rest) == Trunk(b) + TrunkAll(rest)
  {
    assert ([b] + rest)[1..] == rest;
  }

  /** Replacing a box's children by ones with the same trunk. */
  lemma TrunkKept(b: Box, now: Box)
    requires !b.isLabel && b.role != Text && now == b.(children := now.children)
    requires TrunkAll(now.children) == TrunkAll(b.children) && (IsRun(b) <==> IsRun(now))
    ensures Trunk(now) == Trunk(b)
  {
  }

  /** The pieces of a split text, label aside, are the text. */
  lemma TrunkSplit(s: string, start: nat, end: nat, lead: seq<Box>, token: seq<Box>, tail: seq<Box>, n: nat)
    requires start <= end <= |s| && lead == (if start > 0 then [TextBox(false, s[..start])] else [])
    requires token == [LabelBox(n), TextBox(false, s[start..end])] && TrunkAll(tail) == Chars(s[end..], false)
    ensures TrunkAll(lead + token + tail) == Chars(s, false)
  {
    TrunkConcat(lead + token, tail);
    TrunkConcat(lead, token);
    TrunkCons(LabelBox(n), [TextBox(false, s[start..end])]);
    assert token == [LabelBox(n)] + [TextBox(false, s[start..end])];
    TrunkOne(TextBox(false, s[start..end]));
    if start > 0 {
      TrunkOne(TextBox(false, s[..start]));
    }
    assert TrunkAll(lead) == Chars(s[..start], false);
    CharsSplit(s, start, end);
  }

  lemma CharsSplit(s: string, start: nat, end: nat)
    requires start <= end <= |s|
    ensures Chars(s[..start], false) + Chars(s[start..end], false) + Chars(s[end..], false) == Chars(s, false)
  {
  }

  // ---- What labelling does to a reading ----

  /** A labelled stretch: its items, and the links in label order. */
  type Notes = (seq<Item>, seq<string>)

  function Join(a: Notes, b: Notes): Notes {
    (a.0 + b.0, a.1 + b.1)
  }

  lemma JoinAssoc(a: Notes, b: Notes, c: Notes)
    ensures Join(Join(a, b), c) == Join(a, Join(b, c))
  {
    assert (a.0 + b.0) + c.0 == a.0 + (b.0 + c.0);
    assert (a.1 + b.1) + c.1 == a.1 + (b.1 + c.1);
  }

  lemma Assoc<T>(a: seq<T>, b: seq<T>, c: seq<T>)
    ensures (a + b) + c == a + (b + c)
  {
  }

  lemma JoinNothing(a: Notes)
    ensures Join(a, ([], [])) == a && Join(([], []), a) == a
  {
    assert a.0 + [] == a.0 && [] + a.0 == a.0;
    assert a.1 + [] == a.1 && [] + a.1 == a.1;
  }

  /** A text split at its URLs: each token gets the next label in front. */
  function SplitItems(url: Scanner, s: string, k: nat): Notes
    decreases |s|
  {
    var at := FirstURL(url, s, 0);
    if at.None? then ([Txt(s, false)], [])
    else
      var (start, end) := at.value;
      var lead := if start > 0 then ([Txt(s[..start], false)], []) else ([], []);
      var token := ([Lab(LabelText(k + 1)), Txt(s[start..end], false)], [url(s[start..end]).value]);
      var tail := if end == |s| then ([], []) else SplitItems(url, s[end..], k + 1);
      Join(lead, Join(token, tail))
  }

  function TailItems(url: Scanner, s: string, end: nat, k: nat): Notes
    requires end <= |s|
  {
    if end == |s| then ([], []) else SplitItems(url, s[end..], k)
  }

  function Marked(url: Scanner, it: Item, k: nat): Notes {
    match it
    case Open(h) => ([it, Lab(LabelText(k + 1))], [h])
    case Lab(_) => ([it], [])
    case Txt(s, verbatim) => if verbatim then ([it], []) else SplitItems(url, s, k)
  }

  type Marker = (Item, nat) -> Notes

  function MarkerOf(url: Scanner): Marker {
    (it: Item, k: nat) => Marked(url, it, k)
  }

  /** The items with their labels, and the links in label order, numbering on from k. */
  function Annotated(mark: Marker, items: seq<Item>, k: nat): Notes {
    if items == [] then ([], [])
    else
      var first := mark(items[0], k);
      Join(first, Annotated(mark, items[1..], k + |first.1|))
  }

  lemma AnnotatedStep(mark: Marker, it: Item, rest: seq<Item>, k: nat)
    ensures Annotated(mark, [it] + rest, k) == Join(mark(it, k), Annotated(mark, rest, k + |mark(it, k).1|))
  {
    assert ([it] + rest)[1..] == rest;
  }

  lemma {:induction false} AnnotatedConcat(mark: Marker, a: seq<Item>, b: seq<Item>, k: nat)
    ensures Annotated(mark, a + b, k) == Join(Annotated(mark, a, k), Annotated(mark, b, k + |Annotated(mark, a, k).1|))
  {
    if a == [] {
      assert a + b == b;
      JoinNothing(Annotated(mark, b, k));
    } else {
      var first := mark(a[0], k);
      var mid := Annotated(mark, a[1..], k + |first.1|);
      AnnotatedConcat(mark, a[1..], b, k + |first.1|);
      assert a + b == [a[0]] + (a[1..] + b);
      AnnotatedStep(mark, a[0], a[1..] + b, k);
      JoinedConcat(first, mid, Annotated(mark, a, k), Annotated(mark, b, k + |first.1| + |mid.1|));
    }
  }

  lemma JoinedConcat(first: Notes, mid: Notes, whole: Notes, last: Notes)
    requires whole == Join(first, mid)
    ensures Join(first, Join(mid, last)) == Join(whole, last) && |whole.1| == |first.1| + |mid.1|
  {
    JoinAssoc(first, mid, last);
  }

  // ---- The rewrite ----

  /** The label goes to the link's lead inline position. */
  function LabelFirst(children: seq<Box>, n: nat): seq<Box> {
    if children != [] && children[0].role == Block && children[0].tag == "" then
      [children[0].(children := [LabelBox(n)] + children[0].children)] + children[1..]
    else if children != [] && (children[0].role == Block || children[0].role == Table) then
      [Box(Block, "", None, false, false, "", [LabelBox(n)])] + children
    else [LabelBox(n)] + children
  }

  function Weight(b: Box): (r: nat)
    ensures r > 0
    decreases b, 0
  {
    (if IsLink(b) then 3 else 1) + WeightAll(b.children)
  }

  function WeightAll(bs: seq<Box>): nat
    decreases bs, 1
  {
    if bs == [] then 0 else Weight(bs[0]) + WeightAll(bs[1..])
  }

  lemma LabelFirstTrunk(children: seq<Box>, n: nat)
    ensures TrunkAll(LabelFirst(children, n)) == TrunkAll(children)
  {
    var mark := LabelBox(n);
    if children != [] && children[0].role == Block && children[0].tag == "" {
      var run := children[0].(children := [mark] + children[0].children);
      TrunkCons(mark, children[0].children);
      assert run.children[0] == mark && forall i :: 0 <= i < |children[0].children| ==> run.children[i + 1] == children[0].children[i];
      assert Trunk(run) == Trunk(children[0]);
      TrunkCons(run, children[1..]);
    } else if children != [] && (children[0].role == Block || children[0].role == Table) {
      TrunkCons(Box(Block, "", None, false, false, "", [mark]), children);
    } else {
      TrunkCons(mark, children);
    }
  }

  /** Where the label goes: into the anonymous run the link leads with, into a run of its own before
      any other block or table, so that blocks keep only blocks beside them, else in front. */
  lemma LabelFirstPlace(children: seq<Box>, n: nat)
    ensures var out := LabelFirst(children, n);
            if children == [] || (children[0].role != Block && children[0].role != Table) then out == [LabelBox(n)] + children
            else out != [] && out[0].role == Block && out[0].tag == "" && out[0].children != [] && out[0].children[0] == LabelBox(n)
                 && (children[0].role == Block && children[0].tag == "" ==> |out| == |children| && out[0].children[1..] == children[0].children)
                 && (children[0].role == Table || children[0].tag != "" ==> out[0].children == [LabelBox(n)] && out[1..] == children)
  {
  }

  lemma LabelFirstWeight(children: seq<Box>, n: nat)
    ensures WeightAll(LabelFirst(children, n)) <= WeightAll(children) + 2
  {
    var mark := LabelBox(n);
    assert WeightAll([mark]) == 1 by {
      assert WeightAll([mark]) == Weight(mark) + WeightAll([]);
    }
    if children != [] && children[0].role == Block && children[0].tag == "" {
      var inner := [mark] + children[0].children;
      assert inner[1..] == children[0].children;
      var run := children[0].(children := inner);
      assert ([run] + children[1..])[1..] == children[1..];
      assert Weight(run) == Weight(children[0]) + 1;
    } else if children != [] && (children[0].role == Block || children[0].role == Table) {
      var run := Box(Block, "", None, false, false, "", [mark]);
      assert ([run] + children)[1..] == children;
    } else {
      assert ([mark] + children)[1..] == children;
    }
  }

  lemma {:induction false} ReadConcat(a: seq<Box>, b: seq<Box>)
    ensures ReadAll(a + b) == ReadAll(a) + ReadAll(b)
  {
    if a == [] {
      assert a + b == b;
    } else {
      assert (a + b)[1..] == a[1..] + b;
      ReadConcat(a[1..], b);
    }
  }

  lemma ReadOne(b: Box)
    ensures ReadAll([b]) == Reading(b)
  {
    assert ReadAll([b]) == Reading(b) + ReadAll([]);
  }

  lemma LabelReads(n: nat)
    ensures ReadAll([LabelBox(n)]) == [Lab(LabelText(n))]
  {
    ReadOne(LabelBox(n));
    assert ReadAll([]) == [];
  }

  lemma {:induction false} WellFormedConcat(url: Scanner, a: seq<Box>, b: seq<Box>)
    requires AllWellFormed(url, a) && AllWellFormed(url, b)
    ensures AllWellFormed(url, a + b)
  {
    if a == [] {
      assert a + b == b;
    } else {
      assert (a + b)[1..] == a[1..] + b;
      WellFormedConcat(url, a[1..], b);
    }
  }

  lemma OneWellFormed(url: Scanner, b: Box)
    requires WellFormed(url, b)
    ensures AllWellFormed(url, [b])
  {
    assert [b][1..] == [] && AllWellFormed(url, []);
  }

  lemma LabelWellFormed(url: Scanner, n: nat)
    requires Inert(url)
    ensures AllWellFormed(url, [LabelBox(n)])
  {
    assert AllWellFormed(url, []);
    OneWellFormed(url, LabelBox(n));
  }

  /** An anonymous run takes the label in front of its own content. */
  lemma RunReads(url: Scanner, run: Box, n: nat)
    requires Inert(url) && WellFormed(url, run) && run.role == Block && run.tag == ""
    ensures var now := run.(children := [LabelBox(n)] + run.children);
            WellFormed(url, now) && Reading(now) == [Lab(LabelText(n))] + Reading(run)
  {
    LabelReads(n);
    LabelWellFormed(url, n);
    WellFormedConcat(url, [LabelBox(n)], run.children);
    ReadConcat([LabelBox(n)], run.children);
    assert Reading(run) == ReadAll(run.children);
  }

  lemma FreshRunReads(url: Scanner, n: nat)
    requires Inert(url)
    ensures var now := Box(Block, "", None, false, false, "", [LabelBox(n)]);
            WellFormed(url, now) && Reading(now) == [Lab(LabelText(n))]
  {
    LabelReads(n);
    LabelWellFormed(url, n);
  }

  lemma RunFirstReads(url: Scanner, children: seq<Box>, n: nat)
    requires Inert(url) && AllWellFormed(url, children) && children != [] && children[0].role == Block && children[0].tag == ""
    ensures ReadAll(LabelFirst(children, n)) == [Lab(LabelText(n))] + ReadAll(children)
    ensures AllWellFormed(url, LabelFirst(children, n))
  {
    var run := children[0].(children := [LabelBox(n)] + children[0].children);
    RunReads(url, children[0], n);
    HeadReads(url, run, children[0], children[1..], n);
    assert [children[0]] + children[1..] == children;
  }

  lemma HeadReads(url: Scanner, now: Box, was: Box, rest: seq<Box>, n: nat)
    requires WellFormed(url, now) && AllWellFormed(url, rest) && WellFormed(url, was) && Reading(now) == [Lab(LabelText(n))] + Reading(was)
    ensures ReadAll([now] + rest) == [Lab(LabelText(n))] + ReadAll([was] + rest) && AllWellFormed(url, [now] + rest)
  {
    ConsReads(url, now, rest);
    ConsReads(url, was, rest);
    Assoc([Lab(LabelText(n))], Reading(was), ReadAll(rest));
  }

  /** The label reads first, the children after it as before. */
  lemma LabelFirstReads(url: Scanner, children: seq<Box>, n: nat)
    requires Inert(url) && AllWellFormed(url, children)
    ensures ReadAll(LabelFirst(children, n)) == [Lab(LabelText(n))] + ReadAll(children)
    ensures AllWellFormed(url, LabelFirst(children, n))
  {
    if children != [] && children[0].role == Block && children[0].tag == "" {
      RunFirstReads(url, children, n);
    } else if children != [] && (children[0].role == Block || children[0].role == Table) {
      FreshRunReads(url, n);
      ConsReads(url, Box(Block, "", None, false, false, "", [LabelBox(n)]), children);
    } else {
      LabelReads(n);
      LabelWellFormed(url, n);
      ReadOne(LabelBox(n));
      ConsReads(url, LabelBox(n), children);
    }
  }

  lemma ConsReads(url: Scanner, b: Box, rest: seq<Box>)
    requires WellFormed(url, b) && AllWellFormed(url, rest)
    ensures ReadAll([b] + rest) == Reading(b) + ReadAll(rest) && AllWellFormed(url, [b] + rest)
  {
    assert ([b] + rest)[1..] == rest;
  }

  /** What has been read so far, with what is still to come, is the whole. */
  ghost predicate Resumes(mark: Marker, done: Notes, rest: seq<Item>, whole: Notes, k: nat) {
    Join(done, Annotated(mark, rest, k + |done.1|)) == whole
  }

  lemma ResumesStep(mark: Marker, done: Notes, next: seq<Item>, rest: seq<Item>, whole: Notes, k: nat)
    requires Resumes(mark, done, next + rest, whole, k)
    ensures Resumes(mark, Join(done, Annotated(mark, next, k + |done.1|)), rest, whole, k)
  {
    var r := Annotated(mark, next, k + |done.1|);
    AnnotatedConcat(mark, next, rest, k + |done.1|);
    JoinAssoc(done, r, Annotated(mark, rest, k + |done.1| + |r.1|));
  }

  /** The loop over a child list: read and links are what is done, rest is to come. */
  ghost predicate Progress(mark: Marker, read: seq<Item>, was: seq<string>, links: seq<string>, done: Notes, rest: seq<Item>, whole: Notes) {
    read == done.0 && links == was + done.1 && Resumes(mark, done, rest, whole, |was|)
  }

  lemma ProgressStep(mark: Marker, read: seq<Item>, more: seq<Item>, was: seq<string>, before: seq<string>, links: seq<string>,
                     done: Notes, next: seq<Item>, rest: seq<Item>, whole: Notes)
    requires Progress(mark, read, was, before, done, next + rest, whole)
    requires more == Annotated(mark, next, |before|).0 && links == before + Annotated(mark, next, |before|).1
    ensures Progress(mark, read + more, was, links, Join(done, Annotated(mark, next, |before|)), rest, whole)
  {
    ResumesStep(mark, done, next, rest, whole, |was|);
    Assoc(was, done.1, Annotated(mark, next, |before|).1);
  }

  lemma TrunkStep(out: seq<Box>, pieces: seq<Box>, bs: seq<Box>, i: nat)
    requires i < |bs| && TrunkAll(out) + TrunkAll(bs[i..]) == TrunkAll(bs) && (AllLabels(out) <==> AllLabels(bs[..i]))
    requires TrunkAll(pieces) == Trunk(bs[i]) && (AllLabels(pieces) <==> bs[i].isLabel)
    ensures TrunkAll(out + pieces) + TrunkAll(bs[i + 1..]) == TrunkAll(bs) && (AllLabels(out + pieces) <==> AllLabels(bs[..i + 1]))
  {
    TrunkConcat(out, pieces);
    TrunkCons(bs[i], bs[i + 1..]);
    assert bs[i..] == [bs[i]] + bs[i + 1..] && bs[..i + 1] == bs[..i] + [bs[i]];
    Assoc(TrunkAll(out), Trunk(bs[i]), TrunkAll(bs[i + 1..]));
    LabelsJoin(out, pieces);
    LabelsJoin(bs[..i], [bs[i]]);
  }

  lemma LabelsJoin(a: seq<Box>, b: seq<Box>)
    ensures AllLabels(a + b) <==> AllLabels(a) && AllLabels(b)
  {
    if AllLabels(a + b) {
      assert forall i :: 0 <= i < |a| ==> (a + b)[i] == a[i];
      assert forall i :: 0 <= i < |b| ==> (a + b)[|a| + i] == b[i];
    }
  }

  class Stage2 {
    const url: Scanner
    var links: seq<string>

    constructor (url: Scanner)
      ensures this.url == url && links == []
    {
      this.url, links := url, [];
    }

    /** Labels every link and bare URL under the list, in document order. Reading the result is
        reading the original with the labels put in. */
    method InjectInto(bs: seq<Box>) returns (out: seq<Box>)
      requires Inert(url) && AllWellFormed(url, bs)
      modifies `links
      ensures var r := Annotated(MarkerOf(url), ReadAll(bs), |old(links)|);
              ReadAll(out) == r.0 && links == old(links) + r.1
      ensures TrunkAll(out) == TrunkAll(bs) && (AllLabels(out) <==> AllLabels(bs))
      decreases WeightAll(bs), 2
    {
      out := [];
      ghost var mark, was, done: Notes := MarkerOf(url), links, ([], []);
      ghost var whole := Annotated(mark, ReadAll(bs), |links|);
      JoinNothing(whole);
      for i := 0 to |bs|
        invariant AllWellFormed(url, bs[i..]) && WeightAll(bs[i..]) <= WeightAll(bs)
        invariant Progress(mark, ReadAll(out), was, links, done, ReadAll(bs[i..]), whole)
        invariant TrunkAll(out) + TrunkAll(bs[i..]) == TrunkAll(bs) && (AllLabels(out) <==> AllLabels(bs[..i]))
      {
        assert bs[i..][0] == bs[i] && bs[i..][1..] == bs[i + 1..];
        ghost var before := links;
        var pieces := InjectBox(bs[i]);
        ProgressStep(mark, ReadAll(out), ReadAll(pieces), was, before, links, done, Reading(bs[i]), ReadAll(bs[i + 1..]), whole);
        ReadConcat(out, pieces);
        TrunkStep(out, pieces, bs, i);
        out := out + pieces;
        done := Join(done, Annotated(mark, Reading(bs[i]), |before|));
      }
      JoinNothing(done);
      assert bs[..|bs|] == bs;
    }

    method InjectBox(b: Box) returns (out: seq<Box>)
      requires Inert(url) && WellFormed(url, b)
      modifies `links
      ensures var r := Annotated(MarkerOf(url), Reading(b), |old(links)|);
              ReadAll(out) == r.0 && links == old(links) + r.1
      ensures TrunkAll(out) == Trunk(b) && (AllLabels(out) <==> b.isLabel)
      decreases Weight(b), 1
    {
      if b.tag == "a" && b.href.Some? && b.href.value != "" {
        out := InjectLink(b);
        return;
      }
      if b.tag != "a" && b.role == Text && !b.verbatim {
        var at := FindURL(url, b.text);
        if at.Some? {
          out := SplitText(b.text);
          TextAnnotated(url, b.text, |old(links)|);
          assert Reading(b) == [Txt(b.text, false)];
          return;
        }
      }
      var now := b;
      if |b.children| > 0 {
        var children := InjectInto(b.children);
        now := b.(children := children);
      }
      ReadOne(now);
      PlainBox(url, b, now, |old(links)|);
      if !b.isLabel && b.role != Text {
        TrunkKept(b, now);
      }
      TrunkOne(now);
      out := [now];
    }

    method InjectLink(b: Box) returns (out: seq<Box>)
      requires Inert(url) && WellFormed(url, b) && IsLink(b)
      modifies `links
      ensures var r := Annotated(MarkerOf(url), Reading(b), |old(links)|);
              ReadAll(out) == r.0 && links == old(links) + r.1
      ensures TrunkAll(out) == Trunk(b) && !AllLabels(out)
      decreases Weight(b), 0
    {
      links := links + [b.href.value];
      LabelFirstReads(url, b.children, |links|);
      LabelFirstWeight(b.children, |links|);
      LabelFirstTrunk(b.children, |links|);
      var children := InjectInto(LabelFirst(b.children, |links|));
      out := [b.(children := children)];
      TrunkKept(b, out[0]);
      TrunkOne(out[0]);
      LinkReads(url, b, b.(children := children), |old(links)|, Annotated(MarkerOf(url), Reading(b), |old(links)|));
      Assoc(old(links), [b.href.value], Annotated(MarkerOf(url), [Lab(LabelText(|old(links)| + 1))] + ReadAll(b.children), |old(links)| + 1).1);
    }

    /** Splits at the first bare URL, then goes on in the tail. */
    method SplitText(s: string) returns (out: seq<Box>)
      requires FirstURL(url, s, 0).Some?
      modifies `links
      ensures var r := SplitItems(url, s, |old(links)|); ReadAll(out) == r.0 && links == old(links) + r.1
      ensures TrunkAll(out) == Chars(s, false) && !AllLabels(out)
      decreases |s|, 1
    {
      var at := FindURL(url, s);
      var (start, end) := at.value;
      links := links + [url(s[start..end]).value];
      var lead := if start > 0 then [TextBox(false, s[..start])] else [];
      var token := [LabelBox(|links|), TextBox(false, s[start..end])];
      var tail := SplitTail(s, end);
      out := lead + token + tail;
      TrunkSplit(s, start, end, lead, token, tail, |old(links)| + 1);
      assert out[|lead| + 1] == token[1];
      PiecesRead(lead, token, tail);
      TokenReads(|old(links)| + 1, s[start..end]);
      if start > 0 {
        TextReads(s[..start]);
      }
      SplitReads(url, s, start, end, |old(links)|, ReadAll(lead), ReadAll(token), ReadAll(tail));
      Assoc(old(links), [url(s[start..end]).value], TailItems(url, s, end, |old(links)| + 1).1);
    }

    method SplitTail(s: string, end: nat) returns (out: seq<Box>)
      requires 0 < end <= |s|
      modifies `links
      ensures var r := TailItems(url, s, end, |old(links)|); ReadAll(out) == r.0 && links == old(links) + r.1
      ensures TrunkAll(out) == Chars(s[end..], false)
      decreases |s|, 0
    {
      if end == |s| {
        return [];
      }
      var more := FindURL(url, s[end..]);
      if more.Some? {
        out := SplitText(s[end..]);
      } else {
        TextReads(s[end..]);
        TrunkOne(TextBox(false, s[end..]));
        out := [TextBox(false, s[end..])];
      }
    }
  }

  lemma SplitReads(url: Scanner, s: string, start: nat, end: nat, k: nat, lead: seq<Item>, token: seq<Item>, tail: seq<Item>)
    requires FirstURL(url, s, 0) == Some((start, end))
    requires lead == if start > 0 then [Txt(s[..start], false)] else []
    requires token == [Lab(LabelText(k + 1)), Txt(s[start..end], false)] && tail == TailItems(url, s, end, k + 1).0
    ensures SplitItems(url, s, k).0 == lead + token + tail
    ensures SplitItems(url, s, k).1 == [url(s[start..end]).value] + TailItems(url, s, end, k + 1).1
  {
    Assoc(lead, token, tail);
    assert [] + ([url(s[start..end]).value] + TailItems(url, s, end, k + 1).1) == [url(s[start..end]).value] + TailItems(url, s, end, k + 1).1;
  }

  lemma TextReads(s: string)
    ensures ReadAll([TextBox(false, s)]) == [Txt(s, false)]
  {
    ReadOne(TextBox(false, s));
    assert ReadAll([]) == [];
  }

  lemma TokenReads(n: nat, f: string)
    ensures ReadAll([LabelBox(n), TextBox(false, f)]) == [Lab(LabelText(n)), Txt(f, false)]
  {
    LabelReads(n);
    TextReads(f);
    ReadConcat([LabelBox(n)], [TextBox(false, f)]);
    assert [LabelBox(n)] + [TextBox(false, f)] == [LabelBox(n), TextBox(false, f)];
  }

  lemma PiecesRead(a: seq<Box>, b: seq<Box>, c: seq<Box>)
    ensures ReadAll(a + b + c) == ReadAll(a) + ReadAll(b) + ReadAll(c)
  {
    ReadConcat(a + b, c);
    ReadConcat(a, b);
  }

  lemma TextAnnotated(url: Scanner, s: string, k: nat)
    ensures Annotated(MarkerOf(url), [Txt(s, false)], k) == SplitItems(url, s, k)
  {
    assert [Txt(s, false)][1..] == [];
    JoinNothing(SplitItems(url, s, k));
  }

  lemma LinkAnnotated(url: Scanner, h: string, rest: seq<Item>, k: nat)
    ensures Annotated(MarkerOf(url), [Open(h)] + rest, k) ==
              Join(([Open(h)], [h]), Annotated(MarkerOf(url), [Lab(LabelText(k + 1))] + rest, k + 1))
  {
    var mark := Lab(LabelText(k + 1));
    AnnotatedStep(MarkerOf(url), Open(h), rest, k);
    AnnotatedStep(MarkerOf(url), mark, rest, k + 1);
    OpenThenMark(h, mark, Annotated(MarkerOf(url), rest, k + 1));
  }

  lemma LinkReads(url: Scanner, b: Box, now: Box, k: nat, whole: Notes)
    requires IsLink(b) && b.role != Text && now == b.(children := now.children) && whole == Annotated(MarkerOf(url), Reading(b), k)
    requires ReadAll(now.children) == Annotated(MarkerOf(url), [Lab(LabelText(k + 1))] + ReadAll(b.children), k + 1).0
    ensures ReadAll([now]) == whole.0
    ensures whole.1 == [b.href.value] + Annotated(MarkerOf(url), [Lab(LabelText(k + 1))] + ReadAll(b.children), k + 1).1
  {
    ReadOne(now);
    LinkAnnotated(url, b.href.value, ReadAll(b.children), k);
    assert Reading(b) == [Open(b.href.value)] + ReadAll(b.children);
    assert Reading(now) == [Open(b.href.value)] + ReadAll(now.children);
  }

  lemma OpenThenMark(h: string, mark: Item, rest: Notes)
    ensures Join(([Open(h), mark], [h]), rest) == Join(([Open(h)], [h]), Join(([mark], []), rest))
  {
    assert [Open(h), mark] + rest.0 == [Open(h)] + ([mark] + rest.0);
    assert [h] + rest.1 == [h] + ([] + rest.1);
  }

  /** A box that is neither a link nor a text with a URL keeps its own part of the reading. */
  lemma PlainBox(url: Scanner, b: Box, now: Box, k: nat)
    requires WellFormed(url, b) && !IsLink(b) && (b.role == Text && !b.verbatim ==> FirstURL(url, b.text, 0) == None)
    requires now == b.(children := now.children) && ReadAll(now.children) == Annotated(MarkerOf(url), ReadAll(b.children), k).0
    ensures Reading(now) == Annotated(MarkerOf(url), Reading(b), k).0
    ensures Annotated(MarkerOf(url), Reading(b), k).1 == Annotated(MarkerOf(url), ReadAll(b.children), k).1
  {
    if b.role == Text {
      assert ReadAll(b.children) == [];
      var own := if b.isLabel then Lab(b.text) else Txt(b.text, b.verbatim);
      assert Reading(b) == [own] && [own][1..] == [];
      assert Marked(url, own, k) == ([own], []);
    } else {
      assert Reading(b) == ReadAll(b.children);
    }
  }

  /** No label reads as a bare URL. */
  ghost predicate Inert(url: Scanner) {
    forall n: nat :: FirstURL(url, LabelText(n), 0) == None
  }

  // ---- What the reading says ----

  predicate Unlabelled(items: seq<Item>) {
    forall k :: 0 <= k < |items| ==> !items[k].Lab?
  }

  function LabelsOf(items: seq<Item>): seq<string> {
    if items == [] then [] else (if items[0].Lab? then [items[0].text] else []) + LabelsOf(items[1..])
  }

  function PlainOf(items: seq<Item>): string {
    if items == [] then "" else (if items[0].Txt? then items[0].text else "") + PlainOf(items[1..])
  }

  /** [k+1], [k+2], .. [k+n]. */
  function Numbered(k: nat, n: nat): (r: seq<string>)
    ensures |r| == n && forall i :: 0 <= i < n ==> r[i] == LabelText(k + 1 + i)
  {
    seq(n, i requires 0 <= i < n => LabelText(k + 1 + i))
  }

  /** Each label sits right behind the opening of its link, or right before its token; every other
      text that may be split holds no URL. */
  predicate Witnessed(url: Scanner, items: seq<Item>, links: seq<string>)
    decreases |items|
  {
    if items == [] then links == []
    else if items[0].Txt? then Unsplit(url, items[0]) && Witnessed(url, items[1..], links)
    else
      && |items| >= 2 && links != []
      && (if items[0].Open? then items[1].Lab? && items[0].href == links[0]
          else items[1].Txt? && url(items[1].text) == Some(links[0]))
      && Witnessed(url, items[2..], links[1..])
  }

  predicate Unsplit(url: Scanner, it: Item)
    requires it.Txt?
  {
    it.verbatim || FirstURL(url, it.text, 0) == None
  }

  lemma {:induction false} LabelsConcat(a: seq<Item>, b: seq<Item>)
    ensures LabelsOf(a + b) == LabelsOf(a) + LabelsOf(b) && PlainOf(a + b) == PlainOf(a) + PlainOf(b)
  {
    if a == [] {
      assert a + b == b;
    } else {
      assert (a + b)[1..] == a[1..] + b;
      LabelsConcat(a[1..], b);
    }
  }

  lemma {:induction false} WitnessedConcat(url: Scanner, a: seq<Item>, la: seq<string>, b: seq<Item>, lb: seq<string>)
    requires Witnessed(url, a, la) && Witnessed(url, b, lb)
    ensures Witnessed(url, a + b, la + lb)
    decreases |a|
  {
    if a == [] {
      assert a + b == b && la + lb == lb;
    } else if a[0].Txt? {
      assert (a + b)[1..] == a[1..] + b;
      WitnessedConcat(url, a[1..], la, b, lb);
    } else {
      assert (a + b)[2..] == a[2..] + b && (la + lb)[1..] == la[1..] + lb;
      WitnessedConcat(url, a[2..], la[1..], b, lb);
    }
  }

  /** A labelled stretch of reading: numbered on from k, each label at its link, the text as it was. */
  ghost predicate Labelled(url: Scanner, r: Notes, plain: string, k: nat) {
    && LabelsOf(r.0) == Numbered(k, |r.1|)
    && PlainOf(r.0) == plain
    && Witnessed(url, r.0, r.1)
  }

  lemma LabelledConcat(url: Scanner, a: Notes, pa: string, b: Notes, pb: string, k: nat)
    requires Labelled(url, a, pa, k) && Labelled(url, b, pb, k + |a.1|)
    ensures Labelled(url, Join(a, b), pa + pb, k)
  {
    LabelsConcat(a.0, b.0);
    WitnessedConcat(url, a.0, a.1, b.0, b.1);
    assert Numbered(k, |a.1|) + Numbered(k + |a.1|, |b.1|) == Numbered(k, |a.1 + b.1|);
  }

  lemma PlainLabelled(url: Scanner, s: string, verbatim: bool, k: nat)
    requires Unsplit(url, Txt(s, verbatim))
    ensures Labelled(url, ([Txt(s, verbatim)], []), s, k)
  {
    assert [Txt(s, verbatim)][1..] == [];
    assert s + "" == s;
  }

  lemma NothingLabelled(url: Scanner, k: nat)
    ensures Labelled(url, ([], []), "", k)
  {
  }

  lemma TokenLabelled(url: Scanner, f: string, k: nat)
    requires url(f).Some?
    ensures Labelled(url, ([Lab(LabelText(k + 1)), Txt(f, false)], [url(f).value]), f, k)
  {
    var items := [Lab(LabelText(k + 1)), Txt(f, false)];
    assert items[1..] == [Txt(f, false)] && items[2..] == [] && [Txt(f, false)][1..] == [];
    assert [url(f).value][1..] == [];
    assert LabelsOf([Txt(f, false)]) == [] && PlainOf([Txt(f, false)]) == f;
    assert Numbered(k, 1) == [LabelText(k + 1)];
  }

  lemma LinkLabelled(url: Scanner, h: string, k: nat)
    ensures Labelled(url, ([Open(h), Lab(LabelText(k + 1))], [h]), "", k)
  {
    var items := [Open(h), Lab(LabelText(k + 1))];
    assert items[1..] == [Lab(LabelText(k + 1))] && items[2..] == [] && items[1..][1..] == [];
    assert [h][1..] == [];
    assert LabelsOf(items[1..]) == [LabelText(k + 1)] && PlainOf(items[1..]) == "";
    assert PlainOf(items) == "";
    assert Numbered(k, 1) == [LabelText(k + 1)];
  }

  lemma LeadLabelled(url: Scanner, s: string, start: nat, k: nat)
    requires start <= |s| && FirstURL(url, s[..start], 0) == None
    ensures Labelled(url, if start > 0 then ([Txt(s[..start], false)], []) else ([], []), s[..start], k)
  {
    if start > 0 {
      PlainLabelled(url, s[..start], false, k);
    } else {
      NothingLabelled(url, k);
      assert s[..0] == "";
    }
  }

  lemma {:induction false} SplitLabelled(url: Scanner, s: string, k: nat)
    ensures Labelled(url, SplitItems(url, s, k), s, k)
    decreases |s|
  {
    var at := FirstURL(url, s, 0);
    if at.None? {
      PlainLabelled(url, s, false, k);
    } else {
      var (start, end) := at.value;
      var f := s[start..end];
      if end == |s| {
        NothingLabelled(url, k + 1);
        assert s[end..] == "";
      } else {
        SplitLabelled(url, s[end..], k + 1);
      }
      SplitParts(url, s, start, end, k, if end == |s| then ([], []) else SplitItems(url, s[end..], k + 1));
    }
  }

  lemma SplitParts(url: Scanner, s: string, start: nat, end: nat, k: nat, tail: Notes)
    requires FirstURL(url, s, 0) == Some((start, end)) && Labelled(url, tail, s[end..], k + 1)
    ensures var lead := if start > 0 then ([Txt(s[..start], false)], []) else ([], []);
            var token := ([Lab(LabelText(k + 1)), Txt(s[start..end], false)], [url(s[start..end]).value]);
            Labelled(url, Join(lead, Join(token, tail)), s, k)
  {
    var lead: Notes := if start > 0 then ([Txt(s[..start], false)], []) else ([], []);
    var token := ([Lab(LabelText(k + 1)), Txt(s[start..end], false)], [url(s[start..end]).value]);
    TokenLabelled(url, s[start..end], k);
    LabelledConcat(url, token, s[start..end], tail, s[end..], k);
    LeadJoined(url, s, start, end, k, Join(token, tail));
  }

  lemma LeadJoined(url: Scanner, s: string, start: nat, end: nat, k: nat, rest: Notes)
    requires FirstURL(url, s, 0) == Some((start, end)) && Labelled(url, rest, s[start..end] + s[end..], k)
    ensures var lead: Notes := if start > 0 then ([Txt(s[..start], false)], []) else ([], []); Labelled(url, Join(lead, rest), s, k)
  {
    var lead: Notes := if start > 0 then ([Txt(s[..start], false)], []) else ([], []);
    LeadHasNone(url, s, start, end);
    LeadLabelled(url, s, start, k);
    LabelledConcat(url, lead, s[..start], rest, s[start..end] + s[end..], k);
    Whole(s, start, end);
  }

  lemma Whole(s: string, start: nat, end: nat)
    requires start <= end <= |s|
    ensures s[..start] + (s[start..end] + s[end..]) == s
  {
  }

  function PlainText(it: Item): string {
    if it.Txt? then it.text else ""
  }

  lemma MarkedLabelled(url: Scanner, it: Item, k: nat)
    requires !it.Lab?
    ensures Labelled(url, Marked(url, it, k), PlainText(it), k)
  {
    match it {
      case Open(h) => LinkLabelled(url, h, k);
      case Txt(s, verbatim) =>
        if verbatim {
          PlainLabelled(url, s, verbatim, k);
        } else {
          SplitLabelled(url, s, k);
        }
    }
  }

  /** Labels read [k+1], [k+2], .. one per link; each is at the link or token that gave its entry;
      the text without the labels is unchanged. */
  lemma {:induction false} AnnotatedLabelled(url: Scanner, items: seq<Item>, k: nat)
    requires Unlabelled(items)
    ensures Labelled(url, Annotated(MarkerOf(url), items, k), PlainOf(items), k)
  {
    if items == [] {
      NothingLabelled(url, k);
    } else {
      var first := MarkerOf(url)(items[0], k);
      MarkedLabelled(url, items[0], k);
      AnnotatedLabelled(url, items[1..], k + |first.1|);
      LabelledConcat(url, first, PlainText(items[0]), Annotated(MarkerOf(url), items[1..], k + |first.1|), PlainOf(items[1..]), k);
    }
  }

  /** The whole render: n labels for n links, numbered from 1 in document order. */
  method InjectLinkLabels(url: Scanner, bs: seq<Box>) returns (out: seq<Box>, links: seq<string>)
    requires Inert(url) && AllWellFormed(url, bs) && Unlabelled(ReadAll(bs))
    ensures LabelsOf(ReadAll(out)) == Numbered(0, |links|)
    ensures PlainOf(ReadAll(out)) == PlainOf(ReadAll(bs))
    ensures Witnessed(url, ReadAll(out), links)
    ensures TrunkAll(out) == TrunkAll(bs)
  {
    var q := new Stage2(url);
    out := q.InjectInto(bs);
    links := q.links;
    AnnotatedLabelled(url, ReadAll(bs), 0);
    assert [] + Annotated(MarkerOf(url), ReadAll(bs), 0).1 == Annotated(MarkerOf(url), ReadAll(bs), 0).1;
  }
}
