/** The detail-record builder of the crawl task: the title element and the
    page's (label, value) blocks are folded into one flat key-to-value
    record, which starts with `type`, `publicationUrls` and
    `publicationTitle` and in which scraped labels are keys like any other. */
module Details {
  import opened Wrappers

  /** A value of the record: the JavaScript `null` or a string. */
  datatype Value = Null | Str(s: string)

  /** The record is a plain object: a flat map from keys to values. */
  type Record = map<string, Value>

  const TypeKey: string := "type"
  const UrlKey: string := "publicationUrls"
  const TitleKey: string := "publicationTitle"
  const UnknownType: string := "Unknown"

  /** JavaScript truthiness of a value of the record. */
  predicate Falsy(v: Value) {
    v == Null || v == Str("")
  }

  /** One `div.gs_scl` block: the text of its field element and of its
      value element, `None` where the block has no such element. */
  datatype Block = Block(field: Option<string>, value: Option<string>)

  /** `?.innerText || ""`: a missing element reads as the empty string. */
  function OrEmpty(t: Option<string>): string {
    match t
    case Some(s) => s
    case None => ""
  }

  function Label(b: Block): string {
    OrEmpty(b.field)
  }

  function Description(b: Block): string {
    OrEmpty(b.value)
  }

  /** Only a block whose label and value are both non-empty is stored. */
  predicate Stored(b: Block) {
    Label(b) != "" && Description(b) != ""
  }

  /** The three labels that classify a publication (exact, case-sensitive). */
  predicate IsReserved(name: string) {
    name == "Conference" || name == "Journal" || name == "Book"
  }

  /** A stored block with a reserved label. */
  predicate Classifies(b: Block) {
    Stored(b) && IsReserved(Label(b))
  }

  /** `el.querySelector("a")?.href || null`: `href` is the link in the title
      element, `None` when there is none; an empty link is falsy too. */
  function LinkValue(href: Option<string>): (v: Value)
    ensures v.Null? <==> href.None? || href == Some("")
  {
    match href
    case None => Null
    case Some(h) => if h == "" then Null else Str(h)
  }

  /** The record before the blocks are read: no type yet, the title's link
      and the title's text. */
  function InitialRecord(publicationTitle: string, href: Option<string>): (m: Record)
    ensures m.Keys == {TypeKey, UrlKey, TitleKey}
    ensures m[TypeKey] == Null && m[UrlKey] == LinkValue(href) && m[TitleKey] == Str(publicationTitle)
  {
    map[TypeKey := Null, UrlKey := LinkValue(href), TitleKey := Str(publicationTitle)]
  }

  /** One iteration of the loop over the blocks: the value is stored under
      its label first, and only then does a reserved label set `type`. */
  function Absorb(m: Record, b: Block): Record {
    if Stored(b) then
      var m' := m[Label(b) := Str(Description(b))];
      if IsReserved(Label(b)) then m'[TypeKey := Str(Label(b))] else m'
    else m
  }

  /** The whole loop, block by block in page order. */
  function AbsorbAll(m: Record, blocks: seq<Block>): (r: Record)
    ensures m.Keys <= r.Keys
  {
    if blocks == [] then m
    else Absorb(AbsorbAll(m, blocks[..|blocks| - 1]), blocks[|blocks| - 1])
  }

  /** Lines 160-162: a `type` that is still falsy becomes "Unknown". */
  function DefaultType(m: Record): Record
    requires TypeKey in m
  {
    if Falsy(m[TypeKey]) then m[TypeKey := Str(UnknownType)] else m
  }

  /** The record a successful task pushes. */
  function DetailRecord(publicationTitle: string, href: Option<string>, blocks: seq<Block>): Record {
    DefaultType(AbsorbAll(InitialRecord(publicationTitle, href), blocks))
  }

  /** The loop of the task body, updating one dictionary in place. */
  method BuildPublicationDetails(publicationTitle: string, href: Option<string>, blocks: seq<Block>)
    returns (publicationDetails: Record)
    ensures publicationDetails == DetailRecord(publicationTitle, href, blocks)
  {
    publicationDetails := map[];
    publicationDetails := publicationDetails[TypeKey := Null];
    publicationDetails := publicationDetails[UrlKey := LinkValue(href)];
    publicationDetails := publicationDetails[TitleKey := Str(publicationTitle)];
    ghost var initial := publicationDetails;
    assert initial == InitialRecord(publicationTitle, href);
    for i := 0 to |blocks|
      invariant publicationDetails == AbsorbAll(initial, blocks[..i])
    {
      assert blocks[..i + 1][..i] == blocks[..i];
      var title := Label(blocks[i]);
      var description := Description(blocks[i]);
      if title != "" && description != "" {
        publicationDetails := publicationDetails[title := Str(description)];
        if title == "Conference" {
          publicationDetails := publicationDetails[TypeKey := Str("Conference")];
        } else if title == "Journal" {
          publicationDetails := publicationDetails[TypeKey := Str("Journal")];
        } else if title == "Book" {
          publicationDetails := publicationDetails[TypeKey := Str("Book")];
        }
      }
    }
    assert blocks[..|blocks|] == blocks;
    if Falsy(publicationDetails[TypeKey]) {
      publicationDetails := publicationDetails[TypeKey := Str(UnknownType)];
    }
  }

  // ---------------------------------------------------------------------
  // A reference description of the record, key by key.

  /** Whether block `b` writes key `k`: a stored block writes its own label,
      and a stored block with a reserved label also writes `type`. */
  predicate Writes(b: Block, k: string) {
    Stored(b) && (Label(b) == k || (k == TypeKey && IsReserved(Label(b))))
  }

  /** What block `b` writes into key `k`. */
  function Written(b: Block, k: string): string {
    if k == TypeKey && IsReserved(Label(b)) then Label(b) else Description(b)
  }

  /** The position of the last block that writes key `k`. */
  function LastWrite(blocks: seq<Block>, k: string): (r: Option<nat>)
    ensures r.Some? ==> r.value < |blocks| && Writes(blocks[r.value], k)
    ensures r.Some? ==> forall j :: r.value < j < |blocks| ==> !Writes(blocks[j], k)
    ensures r.None? ==> forall j :: 0 <= j < |blocks| ==> !Writes(blocks[j], k)
  {
    if blocks == [] then None
    else if Writes(blocks[|blocks| - 1], k) then Some(|blocks| - 1)
    else LastWrite(blocks[..|blocks| - 1], k)
  }

  /** The labels of the stored blocks. */
  function StoredLabels(blocks: seq<Block>): set<string> {
    set j | 0 <= j < |blocks| && Stored(blocks[j]) :: Label(blocks[j])
  }

  /** Last write wins: after the loop, a key holds what the last block
      writing it wrote, and a key no block writes is as it was. */
  lemma {:induction false} AbsorbAllAt(m: Record, blocks: seq<Block>, k: string)
    ensures LastWrite(blocks, k).Some? ==>
              k in AbsorbAll(m, blocks) &&
              AbsorbAll(m, blocks)[k] == Str(Written(blocks[LastWrite(blocks, k).value], k))
    ensures LastWrite(blocks, k).None? ==>
              (k in AbsorbAll(m, blocks) <==> k in m) &&
              (k in m ==> AbsorbAll(m, blocks)[k] == m[k])
  {
    if blocks != [] {
      var prefix := blocks[..|blocks| - 1];
      AbsorbAllAt(m, prefix, k);
      if !Writes(blocks[|blocks| - 1], k) {
        assert LastWrite(blocks, k) == LastWrite(prefix, k);
      }
    }
  }

  /** The keys after the loop: the initial ones and the stored labels. */
  lemma {:induction false} AbsorbAllKeys(m: Record, blocks: seq<Block>)
    requires TypeKey in m
    ensures AbsorbAll(m, blocks).Keys == m.Keys + StoredLabels(blocks)
  {
    if blocks != [] {
      var prefix := blocks[..|blocks| - 1];
      var b := blocks[|blocks| - 1];
      AbsorbAllKeys(m, prefix);
      assert StoredLabels(blocks) == StoredLabels(prefix) + (if Stored(b) then {Label(b)} else {}) by {
        forall l | l in StoredLabels(blocks)
          ensures l in StoredLabels(prefix) + (if Stored(b) then {Label(b)} else {})
        {
          var j :| 0 <= j < |blocks| && Stored(blocks[j]) && Label(blocks[j]) == l;
          if j < |blocks| - 1 {
            assert prefix[j] == blocks[j];
          }
        }
        forall l | l in StoredLabels(prefix)
          ensures l in StoredLabels(blocks)
        {
          var j :| 0 <= j < |prefix| && Stored(prefix[j]) && Label(prefix[j]) == l;
          assert blocks[j] == prefix[j];
        }
      }
    }
  }

  /** The record has exactly the three initial keys and the labels of the
      stored blocks. */
  lemma RecordKeys(publicationTitle: string, href: Option<string>, blocks: seq<Block>)
    ensures DetailRecord(publicationTitle, href, blocks).Keys == {TypeKey, UrlKey, TitleKey} + StoredLabels(blocks)
  {
    AbsorbAllKeys(InitialRecord(publicationTitle, href), blocks);
  }

  /** Every key other than `type` holds the value of the last stored block
      with that label; without one, `publicationUrls` and `publicationTitle`
      keep the title's link and text, and other keys are absent. The record
      is flat, so a block labelled `publicationTitle` or `publicationUrls`
      overwrites those two keys. */
  lemma RecordField(publicationTitle: string, href: Option<string>, blocks: seq<Block>, k: string)
    requires k != TypeKey
    ensures LastWrite(blocks, k).Some? ==>
              k in DetailRecord(publicationTitle, href, blocks) &&
              DetailRecord(publicationTitle, href, blocks)[k] == Str(Description(blocks[LastWrite(blocks, k).value]))
    ensures LastWrite(blocks, k).None? && k == UrlKey ==>
              DetailRecord(publicationTitle, href, blocks)[k] == LinkValue(href)
    ensures LastWrite(blocks, k).None? && k == TitleKey ==>
              DetailRecord(publicationTitle, href, blocks)[k] == Str(publicationTitle)
    ensures LastWrite(blocks, k).None? && k != UrlKey && k != TitleKey ==>
              k !in DetailRecord(publicationTitle, href, blocks)
  {
    AbsorbAllAt(InitialRecord(publicationTitle, href), blocks, k);
  }

  /** `type` holds what the last block writing it wrote (a reserved label,
      or the value of a block literally labelled `type`), and "Unknown" when
      no block wrote it. */
  lemma RecordType(publicationTitle: string, href: Option<string>, blocks: seq<Block>)
    ensures TypeKey in DetailRecord(publicationTitle, href, blocks)
    ensures LastWrite(blocks, TypeKey).Some? ==>
              DetailRecord(publicationTitle, href, blocks)[TypeKey] ==
                Str(Written(blocks[LastWrite(blocks, TypeKey).value], TypeKey))
    ensures LastWrite(blocks, TypeKey).None? ==>
              DetailRecord(publicationTitle, href, blocks)[TypeKey] == Str(UnknownType)
  {
    AbsorbAllAt(InitialRecord(publicationTitle, href), blocks, TypeKey);
  }

  /** `type` is never null, nor empty, in a record that is pushed. */
  lemma TypeNeverNull(publicationTitle: string, href: Option<string>, blocks: seq<Block>)
    ensures TypeKey in DetailRecord(publicationTitle, href, blocks)
    ensures DetailRecord(publicationTitle, href, blocks)[TypeKey].Str?
    ensures !Falsy(DetailRecord(publicationTitle, href, blocks)[TypeKey])
  {
    RecordType(publicationTitle, href, blocks);
  }

  /** On a page without a block labelled `type`: the type is the last
      reserved label among the stored blocks, and "Unknown" when there is
      none. */
  lemma ClassifiedByLastReservedLabel(publicationTitle: string, href: Option<string>, blocks: seq<Block>)
    requires forall j :: 0 <= j < |blocks| && Stored(blocks[j]) ==> Label(blocks[j]) != TypeKey
    ensures TypeKey in DetailRecord(publicationTitle, href, blocks)
    ensures (forall j :: 0 <= j < |blocks| ==> !Classifies(blocks[j])) ==>
              DetailRecord(publicationTitle, href, blocks)[TypeKey] == Str(UnknownType)
    ensures forall j :: 0 <= j < |blocks| && Classifies(blocks[j]) &&
                        (forall i :: j < i < |blocks| ==> !Classifies(blocks[i])) ==>
              DetailRecord(publicationTitle, href, blocks)[TypeKey] == Str(Label(blocks[j]))
  {
    RecordType(publicationTitle, href, blocks);
    assert forall j :: 0 <= j < |blocks| ==> (Writes(blocks[j], TypeKey) <==> Classifies(blocks[j]));
  }

  /** A page whose only classifying label is `Journal` is a journal article,
      wherever the `Journal` blocks stand among the others. */
  lemma JournalWhereverItStands(publicationTitle: string, href: Option<string>, blocks: seq<Block>, j: nat)
    requires j < |blocks| && Classifies(blocks[j]) && Label(blocks[j]) == "Journal"
    requires forall i :: 0 <= i < |blocks| && Classifies(blocks[i]) ==> Label(blocks[i]) == "Journal"
    requires forall i :: 0 <= i < |blocks| && Stored(blocks[i]) ==> Label(blocks[i]) != TypeKey
    ensures DetailRecord(publicationTitle, href, blocks)[TypeKey] == Str("Journal")
  {
    RecordType(publicationTitle, href, blocks);
    assert Writes(blocks[j], TypeKey);
  }

  /** A block that is not stored changes nothing, wherever it stands. */
  lemma {:induction false} UnstoredBlockIgnoredInLoop(m: Record, xs: seq<Block>, b: Block, ys: seq<Block>)
    requires !Stored(b)
    ensures AbsorbAll(m, xs + [b] + ys) == AbsorbAll(m, xs + ys)
  {
    if ys == [] {
      assert xs + [b] + ys == xs + [b];
      assert (xs + [b])[..|xs + [b]| - 1] == xs;
      assert xs + ys == xs;
    } else {
      var ys' := ys[..|ys| - 1];
      var y := ys[|ys| - 1];
      UnstoredBlockIgnoredInLoop(m, xs, b, ys');
      assert xs + [b] + ys == (xs + [b] + ys') + [y];
      assert xs + ys == (xs + ys') + [y];
      assert (xs + [b] + ys)[..|xs + [b] + ys| - 1] == xs + [b] + ys';
      assert (xs + ys)[..|xs + ys| - 1] == xs + ys';
    }
  }

  lemma UnstoredBlockIgnored(publicationTitle: string, href: Option<string>, xs: seq<Block>, b: Block, ys: seq<Block>)
    requires !Stored(b)
    ensures DetailRecord(publicationTitle, href, xs + [b] + ys) == DetailRecord(publicationTitle, href, xs + ys)
  {
    UnstoredBlockIgnoredInLoop(InitialRecord(publicationTitle, href), xs, b, ys);
  }

  /** The record is flat: a journal article whose page also carries a block
      labelled `type` takes that block's value as its type, since it comes
      later, and keeps `Journal` as an ordinary field. */
  lemma FlatRecordExample()
    ensures var rec := DetailRecord("A title", Some("https://example.org/a.pdf"),
                                    [Block(Some("Journal"), Some("Nature")),
                                     Block(Some("type"), Some("Preprint")),
                                     Block(Some("Pages"), None)]);
            rec == map[TypeKey := Str("Preprint"), UrlKey := Str("https://example.org/a.pdf"),
                       TitleKey := Str("A title"), "Journal" := Str("Nature")]
  {
    var b0, b1, b2 := Block(Some("Journal"), Some("Nature")), Block(Some("type"), Some("Preprint")),
                      Block(Some("Pages"), None);
    var bs := [b0, b1, b2];
    var m0 := InitialRecord("A title", Some("https://example.org/a.pdf"));
    assert bs[..2] == [b0, b1] && [b0, b1][..1] == [b0] && [b0][..0] == [];
    var m1 := m0["Journal" := Str("Nature")][TypeKey := Str("Journal")];
    assert AbsorbAll(m0, [b0]) == m1;
    var m2 := m1[TypeKey := Str("Preprint")];
    assert AbsorbAll(m0, [b0, b1]) == m2;
    assert AbsorbAll(m0, bs) == m2;
    assert m2 == map[TypeKey := Str("Preprint"), UrlKey := Str("https://example.org/a.pdf"),
                     TitleKey := Str("A title"), "Journal" := Str("Nature")];
  }
}
