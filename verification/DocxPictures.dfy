// Which picture a page shows in which place when some pictures could not be saved (docx_parser.py,
// process_page_multiprocess).
module DocxPictures {
  import opened Wrappers
  import opened DocxPipeline

  // Every saved picture in its own place, pictures counted from k; nothing in the place of one that is not saved.
  function Own(content: seq<Content>, k: nat, save: nat -> Option<string>): seq<Slot> {
    if content == [] then []
    else match content[0] {
      case TextPart(text) => [TextSlot(text)] + Own(content[1..], k, save)
      case ImagePart(_) => OwnSlot(save(k)) + Own(content[1..], k + 1, save)
    }
  }

  function OwnSlot(file: Option<string>): seq<Slot> {
    match file { case None => [] case Some(path) => [ImageSlot(path)] }
  }

  // Which of the n pictures from the k-th on are saved.
  function SavedFrom(k: nat, n: nat, save: nat -> Option<string>): seq<nat>
    decreases n
  {
    if n == 0 then [] else (if save(k).Some? then [k] else []) + SavedFrom(k + 1, n - 1, save)
  }

  // The number of text parts before the r-th picture of a page.
  function TextsBefore(content: seq<Content>, r: int): nat {
    if content == [] then 0
    else if content[0].TextPart? then 1 + TextsBefore(content[1..], r)
    else if r == 0 then 0
    else TextsBefore(content[1..], r - 1)
  }

  // No text part lies between the place that the r-th saved picture takes, the r-th of the page, and its own.
  ghost predicate InPlace(content: seq<Content>, save: nat -> Option<string>) {
    var numbers := SavedFrom(0, ImageCount(content), save);
    forall r :: 0 <= r < |numbers| ==> TextsBefore(content, r) == TextsBefore(content, numbers[r])
  }

  // ---------- Slots are determined by their texts, their files and where the files are ----------

  function TextsIn(slots: seq<Slot>): seq<string> {
    if slots == [] then []
    else (match slots[0] { case TextSlot(text) => [text] case ImageSlot(_) => [] }) + TextsIn(slots[1..])
  }

  function FilesIn(slots: seq<Slot>): seq<string> {
    if slots == [] then []
    else (match slots[0] { case TextSlot(_) => [] case ImageSlot(path) => [path] }) + FilesIn(slots[1..])
  }

  function SlotTextsBefore(slots: seq<Slot>, r: nat): nat {
    if slots == [] then 0
    else if slots[0].TextSlot? then 1 + SlotTextsBefore(slots[1..], r)
    else if r == 0 then 0
    else SlotTextsBefore(slots[1..], r - 1)
  }

  ghost predicate SamePlaces(a: seq<Slot>, b: seq<Slot>) {
    forall r: nat :: r < |FilesIn(a)| ==> SlotTextsBefore(a, r) == SlotTextsBefore(b, r)
  }

  lemma SlotCons(slot: Slot, rest: seq<Slot>)
    ensures TextsIn([slot] + rest) == (if slot.TextSlot? then [slot.text] else []) + TextsIn(rest)
    ensures FilesIn([slot] + rest) == (if slot.ImageSlot? then [slot.path] else []) + FilesIn(rest)
  {
    assert ([slot] + rest)[1..] == rest;
  }

  lemma SlotPlaceCons(slot: Slot, rest: seq<Slot>, r: nat)
    ensures SlotTextsBefore([slot] + rest, r) ==
      if slot.TextSlot? then 1 + SlotTextsBefore(rest, r) else if r == 0 then 0 else SlotTextsBefore(rest, r - 1)
  {
    assert ([slot] + rest)[1..] == rest;
  }

  lemma SamePlacesTail(x: Slot, a: seq<Slot>, y: Slot, b: seq<Slot>)
    requires SamePlaces([x] + a, [y] + b) && x.TextSlot? == y.TextSlot?
    ensures SamePlaces(a, b)
  {
    SlotCons(x, a);
    forall r: nat | r < |FilesIn(a)| ensures SlotTextsBefore(a, r) == SlotTextsBefore(b, r) {
      var whole: nat := if x.TextSlot? then r else r + 1;
      assert SlotTextsBefore([x] + a, whole) == SlotTextsBefore([y] + b, whole);
      SlotPlaceCons(x, a, whole);
      SlotPlaceCons(y, b, whole);
    }
  }

  lemma SameKind(x: Slot, a: seq<Slot>, y: Slot, b: seq<Slot>)
    requires FilesIn([x] + a) == FilesIn([y] + b) && SamePlaces([x] + a, [y] + b)
    ensures x.TextSlot? == y.TextSlot?
  {
    SlotCons(x, a);
    SlotCons(y, b);
    SlotPlaceCons(x, a, 0);
    SlotPlaceCons(y, b, 0);
    assert |FilesIn([x] + a)| > 0 ==> SlotTextsBefore([x] + a, 0) == SlotTextsBefore([y] + b, 0);
  }

  lemma {:induction false} Determined(a: seq<Slot>, b: seq<Slot>)
    requires TextsIn(a) == TextsIn(b) && FilesIn(a) == FilesIn(b) && SamePlaces(a, b)
    ensures a == b
  {
    if a != [] && b != [] {
      assert [a[0]] + a[1..] == a && [b[0]] + b[1..] == b;
      SameKind(a[0], a[1..], b[0], b[1..]);
      SamePlacesTail(a[0], a[1..], b[0], b[1..]);
      SlotCons(a[0], a[1..]);
      SlotCons(b[0], b[1..]);
      SameFirst(a[0], TextsIn(a[1..]), FilesIn(a[1..]), b[0], TextsIn(b[1..]), FilesIn(b[1..]));
      Determined(a[1..], b[1..]);
    }
  }

  lemma SameFirst(x: Slot, texts: seq<string>, files: seq<string>, y: Slot, texts': seq<string>, files': seq<string>)
    requires x.TextSlot? == y.TextSlot?
    requires (if x.TextSlot? then [x.text] else []) + texts == (if y.TextSlot? then [y.text] else []) + texts'
    requires (if x.ImageSlot? then [x.path] else []) + files == (if y.ImageSlot? then [y.path] else []) + files'
    ensures x == y && texts == texts' && files == files'
  {
    if x.TextSlot? {
      assert ([x.text] + texts)[0] == ([y.text] + texts')[0];
      assert ([x.text] + texts)[1..] == texts && ([y.text] + texts')[1..] == texts';
      assert [] + files == files && [] + files' == files';
    } else {
      assert ([x.path] + files)[0] == ([y.path] + files')[0];
      assert ([x.path] + files)[1..] == files && ([y.path] + files')[1..] == files';
      assert [] + texts == texts && [] + texts' == texts';
    }
  }

  // ---------- The two fillings ----------

  function FilesFrom(k: nat, n: nat, save: nat -> Option<string>): seq<string>
    decreases n
  {
    if n == 0 then [] else OwnFile(save(k)) + FilesFrom(k + 1, n - 1, save)
  }

  function OwnFile(file: Option<string>): seq<string> {
    match file { case None => [] case Some(path) => [path] }
  }

  lemma {:induction false} FilesFromLast(k: nat, n: nat, save: nat -> Option<string>)
    ensures FilesFrom(k, n + 1, save) == FilesFrom(k, n, save) + OwnFile(save(k + n))
    decreases n
  {
    if n > 0 {
      FilesFromLast(k + 1, n - 1, save);
      assert OwnFile(save(k)) + (FilesFrom(k + 1, n - 1, save) + OwnFile(save(k + n))) ==
             OwnFile(save(k)) + FilesFrom(k + 1, n - 1, save) + OwnFile(save(k + n));
    }
  }

  lemma {:induction false} FilesCount(k: nat, n: nat, save: nat -> Option<string>)
    ensures |FilesFrom(k, n, save)| == |SavedFrom(k, n, save)| <= n
    decreases n
  {
    if n > 0 {
      FilesCount(k + 1, n - 1, save);
    }
  }

  lemma {:induction false} SavedInOrder(n: nat, save: nat -> Option<string>)
    ensures Saved(n, save) == FilesFrom(0, n, save)
  {
    if n > 0 {
      SavedInOrder(n - 1, save);
      FilesFromLast(0, n - 1, save);
      assert Saved(n, save) == Saved(n - 1, save) + OwnFile(save(n - 1));
    }
  }

  lemma {:induction false} SlotsHave(content: seq<Content>, files: seq<string>)
    requires |files| <= ImageCount(content)
    ensures TextsIn(Slots(content, files)) == Texts(content) && FilesIn(Slots(content, files)) == files
  {
    if content != [] {
      if content[0].TextPart? {
        SlotsHave(content[1..], files);
        SlotCons(TextSlot(content[0].text), Slots(content[1..], files));
      } else if files == [] {
        SlotsHave(content[1..], files);
      } else {
        SlotsHave(content[1..], files[1..]);
        SlotCons(ImageSlot(files[0]), Slots(content[1..], files[1..]));
        assert [files[0]] + files[1..] == files;
      }
    }
  }

  lemma {:induction false} SlotsPlace(content: seq<Content>, files: seq<string>, r: nat)
    requires |files| <= ImageCount(content) && r < |files|
    ensures SlotTextsBefore(Slots(content, files), r) == TextsBefore(content, r)
  {
    if content[0].TextPart? {
      SlotPlaceCons(TextSlot(content[0].text), Slots(content[1..], files), r);
      SlotsPlace(content[1..], files, r);
    } else {
      SlotPlaceCons(ImageSlot(files[0]), Slots(content[1..], files[1..]), r);
      if r > 0 {
        SlotsPlace(content[1..], files[1..], r - 1);
      }
    }
  }

  lemma {:induction false} OwnHave(content: seq<Content>, k: nat, save: nat -> Option<string>)
    ensures TextsIn(Own(content, k, save)) == Texts(content)
    ensures FilesIn(Own(content, k, save)) == FilesFrom(k, ImageCount(content), save)
  {
    if content != [] {
      if content[0].TextPart? {
        OwnHave(content[1..], k, save);
        SlotCons(TextSlot(content[0].text), Own(content[1..], k, save));
      } else {
        OwnHave(content[1..], k + 1, save);
        OwnSlotFirst(save(k), Own(content[1..], k + 1, save));
      }
    }
  }

  lemma OwnSlotFirst(file: Option<string>, rest: seq<Slot>)
    ensures TextsIn(OwnSlot(file) + rest) == TextsIn(rest)
    ensures FilesIn(OwnSlot(file) + rest) == OwnFile(file) + FilesIn(rest)
  {
    if file.Some? {
      SlotCons(ImageSlot(file.value), rest);
    } else {
      assert [] + rest == rest;
    }
  }

  lemma OwnSlotPlace(file: Option<string>, rest: seq<Slot>, r: nat)
    ensures SlotTextsBefore(OwnSlot(file) + rest, r) ==
      if file.None? then SlotTextsBefore(rest, r) else if r == 0 then 0 else SlotTextsBefore(rest, r - 1)
  {
    if file.Some? {
      SlotPlaceCons(ImageSlot(file.value), rest, r);
    } else {
      assert [] + rest == rest;
    }
  }

  // Where the r-th saved picture of those from the k-th on is counted from there.
  lemma SavedNext(k: nat, n: nat, save: nat -> Option<string>, r: nat)
    requires n > 0 && r < |SavedFrom(k, n, save)|
    ensures save(k).None? ==>
      r < |SavedFrom(k + 1, n - 1, save)| && SavedFrom(k, n, save)[r] == SavedFrom(k + 1, n - 1, save)[r]
    ensures save(k).Some? && r > 0 ==>
      r - 1 < |SavedFrom(k + 1, n - 1, save)| && SavedFrom(k, n, save)[r] == SavedFrom(k + 1, n - 1, save)[r - 1]
    ensures save(k).Some? && r == 0 ==> SavedFrom(k, n, save)[r] == k
  {
  }

  lemma {:induction false} SavedAfter(k: nat, n: nat, save: nat -> Option<string>, r: nat)
    requires r < |SavedFrom(k, n, save)|
    ensures k + r <= SavedFrom(k, n, save)[r] < k + n && save(SavedFrom(k, n, save)[r]).Some?
    decreases n
  {
    SavedNext(k, n, save, r);
    if save(k).None? {
      SavedAfter(k + 1, n - 1, save, r);
    } else if r > 0 {
      SavedAfter(k + 1, n - 1, save, r - 1);
    }
  }

  lemma OwnPlaceNext(content: seq<Content>, k: nat, save: nat -> Option<string>, r: nat)
    requires content != []
    ensures SlotTextsBefore(Own(content, k, save), r) ==
      if content[0].TextPart? then 1 + SlotTextsBefore(Own(content[1..], k, save), r)
      else if save(k).None? then SlotTextsBefore(Own(content[1..], k + 1, save), r)
      else if r == 0 then 0
      else SlotTextsBefore(Own(content[1..], k + 1, save), r - 1)
  {
    if content[0].TextPart? {
      SlotPlaceCons(TextSlot(content[0].text), Own(content[1..], k, save), r);
    } else {
      OwnSlotPlace(save(k), Own(content[1..], k + 1, save), r);
    }
  }

  lemma TextsBeforePicture(content: seq<Content>, j: nat)
    requires content != [] && content[0].ImagePart?
    ensures TextsBefore(content, j) == if j == 0 then 0 else TextsBefore(content[1..], j - 1)
  {
  }

  // The place of the r-th saved picture in Own is the place of its number.
  ghost predicate PlaceOk(content: seq<Content>, k: nat, save: nat -> Option<string>, r: nat) {
    var numbers := SavedFrom(k, ImageCount(content), save);
    r < |numbers| && k <= numbers[r] &&
    SlotTextsBefore(Own(content, k, save), r) == TextsBefore(content, numbers[r] - k)
  }

  lemma TextStep(content: seq<Content>, k: nat, save: nat -> Option<string>, r: nat)
    requires content != [] && content[0].TextPart? && PlaceOk(content[1..], k, save, r)
    ensures PlaceOk(content, k, save, r)
  {
    hide Own, SavedFrom, SlotTextsBefore;
    OwnPlaceNext(content, k, save, r);
    assert ImageCount(content) == ImageCount(content[1..]);
  }

  lemma PictureStep(content: seq<Content>, k: nat, save: nat -> Option<string>, r: nat)
    requires content != [] && content[0].ImagePart?
    requires r < |SavedFrom(k, ImageCount(content), save)|
    requires save(k).None? ==> PlaceOk(content[1..], k + 1, save, r)
    requires save(k).Some? && r > 0 ==> PlaceOk(content[1..], k + 1, save, r - 1)
    ensures PlaceOk(content, k, save, r)
  {
    var number := SavedFrom(k, ImageCount(content), save)[r];
    assert ImageCount(content) - 1 == ImageCount(content[1..]);
    OwnPlaceNext(content, k, save, r);
    SavedNext(k, ImageCount(content), save, r);
    SavedAfter(k, ImageCount(content), save, r);
    TextsBeforePicture(content, number - k);
  }

  lemma {:induction false} OwnPlace(content: seq<Content>, k: nat, save: nat -> Option<string>, r: nat)
    requires r < |SavedFrom(k, ImageCount(content), save)|
    ensures PlaceOk(content, k, save, r)
  {
    hide Own, SlotTextsBefore, TextsBefore;
    if content[0].TextPart? {
      OwnPlace(content[1..], k, save, r);
      TextStep(content, k, save, r);
    } else {
      SavedNext(k, ImageCount(content), save, r);
      assert ImageCount(content) - 1 == ImageCount(content[1..]);
      if save(k).None? {
        OwnPlace(content[1..], k + 1, save, r);
      } else if r > 0 {
        OwnPlace(content[1..], k + 1, save, r - 1);
      }
      PictureStep(content, k, save, r);
    }
  }

  lemma SlotsPlaceSaved(content: seq<Content>, save: nat -> Option<string>, r: nat)
    requires r < |SavedFrom(0, ImageCount(content), save)|
    ensures SlotTextsBefore(Slots(content, Saved(ImageCount(content), save)), r) == TextsBefore(content, r)
  {
    SavedInOrder(ImageCount(content), save);
    FilesCount(0, ImageCount(content), save);
    SlotsPlace(content, FilesFrom(0, ImageCount(content), save), r);
  }

  lemma SameSlots(content: seq<Content>, save: nat -> Option<string>)
    ensures var slots, own := Slots(content, Saved(ImageCount(content), save)), Own(content, 0, save);
      TextsIn(slots) == TextsIn(own) && FilesIn(slots) == FilesIn(own) &&
      |FilesIn(slots)| == |SavedFrom(0, ImageCount(content), save)|
  {
    var n := ImageCount(content);
    SavedInOrder(n, save);
    FilesCount(0, n, save);
    SlotsHave(content, FilesFrom(0, n, save));
    OwnHave(content, 0, save);
  }

  // Filling the places of a page in turn shows every saved picture in its own place, and nothing in the place of a
  // picture that was not saved, exactly if no text part lies between the place a picture takes and its own.
  lemma PicturesInPlace(content: seq<Content>, save: nat -> Option<string>)
    ensures Slots(content, Saved(ImageCount(content), save)) == Own(content, 0, save) <==> InPlace(content, save)
  {
    var numbers := SavedFrom(0, ImageCount(content), save);
    var slots, own := Slots(content, Saved(ImageCount(content), save)), Own(content, 0, save);
    SameSlots(content, save);
    forall r: nat | r < |numbers|
      ensures SlotTextsBefore(slots, r) == SlotTextsBefore(own, r) <==>
              TextsBefore(content, r) == TextsBefore(content, numbers[r])
    {
      SlotsPlaceSaved(content, save, r);
      OwnPlace(content, 0, save, r);
    }
    EqualIff(slots, own, numbers, content);
  }

  // Slots with the same texts and files are equal exactly if the files are in the same places.
  lemma EqualIff(slots: seq<Slot>, own: seq<Slot>, numbers: seq<nat>, content: seq<Content>)
    requires TextsIn(slots) == TextsIn(own) && FilesIn(slots) == FilesIn(own) && |FilesIn(slots)| == |numbers|
    requires forall r: nat :: r < |numbers| ==>
      (SlotTextsBefore(slots, r) == SlotTextsBefore(own, r) <==>
       TextsBefore(content, r) == TextsBefore(content, numbers[r]))
    ensures slots == own <==>
      forall r :: 0 <= r < |numbers| ==> TextsBefore(content, r) == TextsBefore(content, numbers[r])
  {
    if forall r :: 0 <= r < |numbers| ==> TextsBefore(content, r) == TextsBefore(content, numbers[r]) {
      assert SamePlaces(slots, own);
      Determined(slots, own);
    }
  }

  // No picture is saved after one that could not be.
  ghost predicate NoGap(k: nat, n: nat, save: nat -> Option<string>) {
    forall i: nat, j: nat :: k <= i < j < k + n && save(j).Some? ==> save(i).Some?
  }

  lemma {:induction false} NoGapNumbers(k: nat, n: nat, save: nat -> Option<string>, r: nat)
    requires NoGap(k, n, save) && r < |SavedFrom(k, n, save)|
    ensures SavedFrom(k, n, save)[r] == k + r
    decreases n
  {
    SavedNext(k, n, save, r);
    SavedAfter(k, n, save, r);
    assert save(k).Some?;
    if r > 0 {
      NoGapNumbers(k + 1, n - 1, save, r - 1);
    }
  }

  // It is so if the failed saves, if any, come last.
  lemma NoGapInPlace(content: seq<Content>, save: nat -> Option<string>)
    requires NoGap(0, ImageCount(content), save)
    ensures InPlace(content, save)
  {
    var n := ImageCount(content);
    forall r: nat | r < |SavedFrom(0, n, save)| ensures SavedFrom(0, n, save)[r] == r {
      NoGapNumbers(0, n, save, r);
    }
  }

  // A text between two pictures of which only the second is saved: the picture moves in front of the text.
  lemma PictureMoves(text: string, save: nat -> Option<string>)
    requires save(0).None? && save(1).Some?
    ensures var content := [ImagePart(0), TextPart(text), ImagePart(1)];
      && Slots(content, Saved(ImageCount(content), save)) == [ImageSlot(save(1).value), TextSlot(text)]
      && Own(content, 0, save) == [TextSlot(text), ImageSlot(save(1).value)]
  {
    var last := [ImagePart(1)];
    var middle := [TextPart(text)] + last;
    var content := [ImagePart(0)] + middle;
    assert content == [ImagePart(0), TextPart(text), ImagePart(1)];
    assert content[1..] == middle && middle[1..] == last && last[1..] == [];
    assert ImageCount(last) == 1 && ImageCount(middle) == 1 && ImageCount(content) == 2;
    SavedSecond(save);
    assert Slots(last, []) == [] && Slots(middle, []) == [TextSlot(text)];
    assert [save(1).value][1..] == [];
    assert Own(last, 1, save) == [ImageSlot(save(1).value)];
  }

  lemma SavedSecond(save: nat -> Option<string>)
    requires save(0).None? && save(1).Some?
    ensures Saved(2, save) == [save(1).value]
  {
    assert Saved(0, save) == [] && Saved(1, save) == [];
  }

  // Without a text between them nothing shows that a picture took another's place.
  lemma PictureStays(save: nat -> Option<string>)
    requires save(0).None? && save(1).Some?
    ensures var content := [ImagePart(0), ImagePart(1)];
      !NoGap(0, 2, save) && Slots(content, Saved(ImageCount(content), save)) == Own(content, 0, save)
  {
    var last := [ImagePart(1)];
    var content := [ImagePart(0)] + last;
    assert content == [ImagePart(0), ImagePart(1)];
    assert content[1..] == last && last[1..] == [];
    assert ImageCount(last) == 1 && ImageCount(content) == 2;
    SavedSecond(save);
    assert Slots(last, []) == [] && Own(last, 1, save) == [ImageSlot(save(1).value)];
  }
}
