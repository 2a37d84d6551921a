/** `extract_section`: recovering one rubric field from the model's free
    text when its structured output cannot be parsed. */
module TextProcessor {
  import opened Wrappers
  import opened Strings
  import opened Types

  /** Labels whose section is read as a bulleted list. */
  const BulletLabels: seq<string> := [CoreClaimsLabel, RedFlagsLabel, EntitiesLabel]

  const CoreClaimsLabel: string := "Core Claims"
  const RedFlagsLabel: string := "Potential Red Flags"
  const EntitiesLabel: string := "Key Entities Analysis"

  /** The name whose section is read as a numbered list. */
  const QuestionLabel: string := "Verification Questions"

  /** `[line.strip() for line in lines if line.strip()]`. */
  function NonBlankLines(lines: seq<string>): (r: seq<string>)
    ensures |r| <= |lines|
    ensures forall k :: 0 <= k < |r| ==> r[k] != [] && Strip(r[k]) == r[k]
    ensures forall x :: x in r <==> exists l :: l in lines && x == Strip(l) && x != []
    decreases |lines|
  {
    if lines == [] then []
    else
      var line := Strip(lines[0]);
      var rest := NonBlankLines(lines[1..]);
      StripIdempotent(lines[0]);
      assert forall l :: l in lines <==> l == lines[0] || l in lines[1..];
      if line != [] then [line] + rest else rest
  }

  /** The comprehension keeps the order of the lines: it distributes over
      concatenation, and with `NonBlankLinesSingle` this fixes every result. */
  lemma {:induction false} NonBlankLinesAppend(a: seq<string>, b: seq<string>)
    ensures NonBlankLines(a + b) == NonBlankLines(a) + NonBlankLines(b)
    decreases |a|
  {
    if a == [] {
      assert a + b == b;
    } else {
      assert (a + b)[0] == a[0];
      assert (a + b)[1..] == a[1..] + b;
      NonBlankLinesAppend(a[1..], b);
    }
  }

  /** One line is kept, stripped, exactly when it is not blank. */
  lemma NonBlankLinesSingle(line: string)
    ensures NonBlankLines([line]) == if Strip(line) != [] then [Strip(line)] else []
  {
    assert [line][1..] == [];
  }

  /** The stripped non-blank lines of one `###` chunk. */
  function SectionLines(chunk: string): seq<string> {
    NonBlankLines(Split(chunk, "\n"))
  }

  /** The chunk mentions the name (ignoring case) and has a line after its first. */
  predicate Qualifies(chunk: string, name: string) {
    Contains(Lower(chunk), Lower(name)) && |SectionLines(chunk)| > 1
  }

  /** For each chunk, whether it qualifies. */
  function QualifyFlags(chunks: seq<string>, name: string): (flags: seq<bool>)
    ensures |flags| == |chunks|
    ensures forall k :: 0 <= k < |chunks| ==> flags[k] == Qualifies(chunks[k], name)
  {
    seq(|chunks|, k requires 0 <= k < |chunks| => Qualifies(chunks[k], name))
  }

  /** No chunk qualifies. */
  predicate NoneQualifies(chunks: seq<string>, name: string) {
    var flags := QualifyFlags(chunks, name);
    forall k :: 0 <= k < |flags| ==> !flags[k]
  }

  /** Chunk `k` is the first chunk that qualifies. */
  predicate FirstQualifying(chunks: seq<string>, name: string, k: int) {
    var flags := QualifyFlags(chunks, name);
    && 0 <= k < |flags|
    && flags[k]
    && forall j :: 0 <= j < k ==> !flags[j]
  }

  /** The index of the first `true` flag at or after `i`, if any. */
  function FirstFrom(flags: seq<bool>, i: nat): (r: Option<nat>)
    requires i <= |flags|
    ensures r.None? ==> forall k :: i <= k < |flags| ==> !flags[k]
    ensures r.Some? ==> i <= r.value < |flags| && flags[r.value]
                        && forall j :: i <= j < r.value ==> !flags[j]
    decreases |flags| - i
  {
    if i == |flags| then None
    else if flags[i] then Some(i)
    else FirstFrom(flags, i + 1)
  }

  /** `[item[2:].strip() for item in body if item.startswith("* ")]`. */
  function DeBullet(body: seq<string>): (r: seq<string>)
    ensures |r| <= |body|
    ensures forall x :: x in r <==> exists l :: l in body && StartsWith(l, "* ") && x == Strip(l[2..])
    decreases |body|
  {
    if body == [] then []
    else
      var rest := DeBullet(body[1..]);
      assert forall l :: l in body <==> l == body[0] || l in body[1..];
      (if StartsWith(body[0], "* ") then [Strip(body[0][2..])] else []) + rest
  }

  /** The bullets keep their order: `DeBullet` distributes over concatenation. */
  lemma {:induction false} DeBulletAppend(a: seq<string>, b: seq<string>)
    ensures DeBullet(a + b) == DeBullet(a) + DeBullet(b)
    decreases |a|
  {
    if a == [] {
      assert a + b == b;
    } else {
      var c := a + b;
      assert c[0] == a[0];
      assert c[1..] == a[1..] + b;
      DeBulletAppend(a[1..], b);
      var h := if StartsWith(a[0], "* ") then [Strip(a[0][2..])] else [];
      assert DeBullet(c) == h + DeBullet(c[1..]);
      assert DeBullet(a) == h + DeBullet(a[1..]);
    }
  }

  /** One line contributes its stripped text after `* `, or nothing. */
  lemma DeBulletSingle(line: string)
    ensures DeBullet([line]) == if StartsWith(line, "* ") then [Strip(line[2..])] else []
  {
    assert [line][1..] == [];
  }

  /** The first full stop `Find` reports is the only full stop with none before it. */
  lemma FirstFullStop(line: string, i: nat, j: nat)
    requires Find(line, ".") == Some(i)
    requires j < |line| && line[j] == '.' && '.' !in line[..j]
    ensures j == i
  {
    CharOccurs(line, '.', j);
    CharOccurs(line, '.', i);
    forall m | 0 <= m < j ensures line[m] != '.' {
      assert line[m] == line[..j][m];
    }
  }

  /** `item[item.find(".") + 1:].strip() if "." in item else item`: the
      text after the first full stop, stripped, or the line unchanged. */
  function DeNumber(line: string): (r: string)
    ensures '.' !in line ==> r == line
    ensures forall i :: 0 <= i < |line| && line[i] == '.' && '.' !in line[..i] ==> r == Strip(line[i + 1..])
  {
    match Find(line, ".")
    case Some(i) =>
      assert '.' in line by {
        CharOccurs(line, '.', i);
      }
      assert forall j :: 0 <= j < |line| && line[j] == '.' && '.' !in line[..j] ==> j == i by {
        forall j | 0 <= j < |line| && line[j] == '.' && '.' !in line[..j] ensures j == i {
          FirstFullStop(line, i, j);
        }
      }
      Strip(line[i + 1..])
    case None =>
      ContainsChar(line, '.');
      line
  }

  function DeNumberAll(body: seq<string>): (r: seq<string>)
    ensures |r| == |body|
    ensures forall k :: 0 <= k < |body| ==> r[k] == DeNumber(body[k])
  {
    seq(|body|, k requires 0 <= k < |body| => DeNumber(body[k]))
  }

  /** How a section's lines become a field: the three branches of
      `extract_section`, chosen by exact comparison of the name. */
  datatype Layout = Bulleted | Numbered | Joined

  function LayoutOf(name: string): Layout {
    if name in BulletLabels then Bulleted
    else if name == QuestionLabel then Numbered
    else Joined
  }

  /** The field built from the lines after the heading. */
  function Render(layout: Layout, body: seq<string>): Field {
    match layout
    case Bulleted => Items(DeBullet(body))
    case Numbered => Items(DeNumberAll(body))
    case Joined => Text(Join(body, "\n"))
  }

  /** The `###` chunk the loop of `extract_section` stops at, if any. */
  function SectionIndex(text: string, name: string): (r: Option<nat>)
    requires text != []
    ensures r.None? <==> NoneQualifies(Split(text, "###"), name)
    ensures r.Some? ==> r.value < |Split(text, "###")|
    ensures forall k :: FirstQualifying(Split(text, "###"), name, k) ==> r == Some(k)
  {
    var chunks := Split(text, "###");
    var flags := QualifyFlags(chunks, name);
    var r := FirstFrom(flags, 0);
    assert r.None? <==> NoneQualifies(chunks, name);
    r
  }

  /** `extract_section(text, section_name)`. */
  function ExtractSection(text: string, name: string): (r: Field)
    ensures text == [] ==> r == Items([])
    ensures LayoutOf(name) != Joined ==> r.Items?
  {
    if text == [] then Items([])
    else
      match SectionIndex(text, name)
      case None => Items([])
      case Some(k) => Render(LayoutOf(name), SectionLines(Split(text, "###")[k])[1..])
  }

  /** No chunk qualifies: the result is an empty list, whatever the layout. */
  lemma ExtractSectionMissing(text: string, name: string)
    requires text != [] && NoneQualifies(Split(text, "###"), name)
    ensures ExtractSection(text, name) == Items([])
  {
  }

  /** The first qualifying chunk is the one read, its heading line dropped
      and its remaining lines laid out as the name's layout prescribes. */
  lemma ExtractSectionFirst(text: string, name: string, k: nat)
    requires text != [] && FirstQualifying(Split(text, "###"), name, k)
    ensures ExtractSection(text, name) == Render(LayoutOf(name), SectionLines(Split(text, "###")[k])[1..])
  {
  }
}
