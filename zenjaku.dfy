/** The Zenjaku gallery page: the items it builds, in the uploads file's
    entry order, from each image's file name and the URL it was stored at. */
module Zenjaku {
  import opened Wrappers
  import opened JsBuiltins

  /** One entry of the uploads file: a file name and its URL. */
  datatype Upload = Upload(filename: string, url: string)

  datatype GalleryItem = GalleryItem(index: nat, id: string, filename: string, image: string, name: string)

  const Png: string := ".png"

  /** `#` and the index, left-padded with zeros to at least three digits. */
  function ItemName(index: nat): (name: string)
    ensures |name| >= 4 && name[0] == '#'
  {
    "#" + PadStart(Decimal(index), 3, '0')
  }

  /** `filename.replace('.png', '')`: only the first `.png` goes. */
  function ItemId(filename: string): (id: string)
    ensures IndexOfFrom(filename, Png, 0).None? ==> id == filename
    ensures IndexOfFrom(filename, Png, 0).Some? ==> |id| == |filename| - |Png|
  {
    ReplaceFirst(filename, Png, "")
  }

  /** `Object.entries(arweaveData).map(([filename, url], index) => ...)`. */
  function GalleryItems(uploads: seq<Upload>): (items: seq<GalleryItem>)
    ensures |items| == |uploads|
    ensures forall i :: 0 <= i < |items| ==> items[i].index == i + 1 && items[i].image == uploads[i].url
  {
    seq(|uploads|, i requires 0 <= i < |uploads| =>
      GalleryItem(i + 1, ItemId(uploads[i].filename), uploads[i].filename, uploads[i].url, ItemName(i + 1)))
  }

  /** One item per upload, in order: its position plus one as the index,
      the file name and URL unchanged, and a name that is `#` followed by
      digits spelling the index, at least three of them. */
  lemma GalleryItemsMeaning(uploads: seq<Upload>)
    ensures |GalleryItems(uploads)| == |uploads|
    ensures forall i :: 0 <= i < |uploads| ==>
      var item := GalleryItems(uploads)[i];
      && item.index == i + 1
      && item.filename == uploads[i].filename && item.image == uploads[i].url
      && item.id == ItemId(uploads[i].filename)
      && NameSpells(item.name, i + 1)
  {
    forall i | 0 <= i < |uploads|
      ensures NameSpells(GalleryItems(uploads)[i].name, i + 1)
    {
      ItemNameSpells(i + 1);
    }
  }

  /** `name` is `#` and at least three digits whose value is `index`. */
  predicate NameSpells(name: string, index: nat)
  {
    4 <= |name| && name[0] == '#' && AllDigits(name[1..]) && DecimalValue(name[1..]) == index
  }

  lemma ItemNameSpells(index: nat)
    ensures NameSpells(ItemName(index), index)
    ensures |ItemName(index)| == 1 + Max(3, |Decimal(index)|)
  {
    var digits := Decimal(index);
    var padded := PadStart(digits, 3, '0');
    var name := ItemName(index);
    assert name[1..] == padded;
    LeadingZerosValue(|padded| - |digits|, digits);
    DecimalRoundTrip(index);
  }

  /** Different indices give different names, so no two items share one. */
  lemma ItemNamesDistinct(i: nat, j: nat)
    requires i != j
    ensures ItemName(i) != ItemName(j)
  {
    ItemNameSpells(i);
    ItemNameSpells(j);
  }

  /** Names of the first item and of the thousandth. */
  lemma ItemNameExamples()
    ensures ItemName(1) == "#001"
    ensures ItemName(1000) == "#1000"
  {
    assert Decimal(1) == "1";
    assert Decimal(10) == "10";
    assert Decimal(100) == "100";
    assert Decimal(1000) == "1000";
  }

  /** Putting `.png` back where the first one was gives the file name back;
      a file name without `.png` is its own id. */
  lemma ItemIdRestores(filename: string)
    ensures IndexOfFrom(filename, Png, 0).None? ==> ItemId(filename) == filename
    ensures IndexOfFrom(filename, Png, 0).Some? ==>
      var k := IndexOfFrom(filename, Png, 0).value;
      && |ItemId(filename)| == |filename| - |Png|
      && ItemId(filename)[..k] + Png + ItemId(filename)[k..] == filename
  {
    match IndexOfFrom(filename, Png, 0)
    case None =>
    case Some(k) =>
      var id := ItemId(filename);
      assert id == filename[..k] + filename[k + |Png|..];
      assert id[..k] == filename[..k];
      assert id[k..] == filename[k + |Png|..];
      assert filename[k..k + |Png|] == Png;
      assert filename == filename[..k] + filename[k..k + |Png|] + filename[k + |Png|..];
  }

  /** Only the first `.png` is removed. */
  lemma ItemIdExample()
    ensures ItemId("1.png.png") == "1.png"
  {
    var f := "1.png.png";
    assert f[1..5] == Png;
    assert f[0..4][0] == '1' != Png[0];
    assert !OccursAt(f, Png, 0);
    assert OccursAt(f, Png, 1);
    assert IndexOfFrom(f, Png, 1) == Some(1);
    assert IndexOfFrom("1.png.png", Png, 0) == Some(1);
  }
}
