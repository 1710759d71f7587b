// Resolving the image references of OpenDataLoader output (docreader/parser/opendataloader_parser.py).
module OdlAliases {
  import opened Wrappers
  import opened Text
  import opened OdlNames

  // Normalisation of a reference, the number in an imageFile<n> name, and the order in which a set is iterated.
  datatype Env = Env(
    normalize: string -> string,
    fileNumber: string -> Option<nat>,
    order: set<string> -> seq<string>)

  // All spellings of a plain text mean that text.
  ghost predicate MeansItself(env: Env, s: string) {
    env.normalize(s) == s && env.normalize("<" + s + ">") == s && env.normalize("&lt;" + s + "&gt;") == s
  }

  ghost predicate Valid(env: Env) {
    && (forall s {:trigger MeansItself(env, s)} :: IsPlain(s) ==> MeansItself(env, s))
    && (forall names, n :: n in env.order(names) <==> n in names)
  }

  function Normalizer(unescape: string -> string): string -> string {
    raw => NormalizeUrl(unescape, raw)
  }

  lemma SameResult(unescape: string -> string, normalize: string -> string, raw: string, r: string)
    requires normalize == Normalizer(unescape) && NormalizeUrl(unescape, raw) == r
    ensures normalize(raw) == r
  {
  }

  lemma NormalizerMeans(unescape: string -> string, env: Env, s: string)
    requires Unescapes(unescape) && IsPlain(s) && env.normalize == Normalizer(unescape)
    ensures MeansItself(env, s)
  {
    NormalizePlain(unescape, s);
    SameResult(unescape, env.normalize, s, s);
    SameResult(unescape, env.normalize, "<" + s + ">", s);
    SameResult(unescape, env.normalize, "&lt;" + s + "&gt;", s);
  }

  // The normalisation of the program is one.
  lemma NormalizerValid(unescape: string -> string, env: Env)
    requires Unescapes(unescape) && env.normalize == Normalizer(unescape)
    requires forall names, n :: n in env.order(names) <==> n in names
    ensures Valid(env)
  {
    forall s | IsPlain(s) ensures MeansItself(env, s) {
      NormalizerMeans(unescape, env, s);
    }
  }

  // ---------- The alias map ----------

  function Variants(ref: string): (r: seq<string>)
    ensures |r| == 7
  {
    var base := BaseName(ref);
    [ref, base, InImages(base), "<" + ref + ">", "<" + InImages(base) + ">", "&lt;" + ref + "&gt;",
     "&lt;" + InImages(base) + "&gt;"]
  }

  function NormalizedVariants(env: Env, ref: string): (r: seq<string>)
    ensures |r| == 7
  {
    seq(7, i requires 0 <= i < 7 => env.normalize(Variants(ref)[i]))
  }

  function NonEmpty(keys: seq<string>): set<string> {
    set i | 0 <= i < |keys| && keys[i] != "" :: keys[i]
  }

  // The keys an image is registered under.
  function Keys(env: Env, ref: string): set<string> {
    NonEmpty(NormalizedVariants(env, ref))
  }

  // The last image, in order of insertion, that has a spelling with that key.
  function AliasOf(env: Env, images: seq<string>, key: string): Option<string> {
    if images == [] then None
    else
      var last := images[|images| - 1];
      if key in Keys(env, last) then Some(last) else AliasOf(env, images[..|images| - 1], key)
  }

  predicate Aliased(env: Env, images: seq<string>, aliases: map<string, string>, key: string) {
    AliasOf(env, images, key) == if key in aliases then Some(aliases[key]) else None
  }

  ghost predicate IsAliasMap(env: Env, images: seq<string>, aliases: map<string, string>) {
    forall key :: Aliased(env, images, aliases, key)
  }

  method RegisterImageAlias(env: Env, aliases: map<string, string>, spelling: string, canonical: string)
    returns (r: map<string, string>)
    ensures var key := env.normalize(spelling);
      r == if key == "" then aliases else aliases[key := canonical]
  {
    var key := env.normalize(spelling);
    r := if key != "" then aliases[key := canonical] else aliases;
  }

  // The map after some more keys are registered for an image.
  predicate Registered(before: map<string, string>, after: map<string, string>, ref: string, keys: set<string>,
                       key: string)
  {
    if key in keys then key in after && after[key] == ref
    else (key in after <==> key in before) && (key in before ==> after[key] == before[key])
  }

  lemma NonEmptyNext(keys: seq<string>, i: nat)
    requires i < |keys|
    ensures NonEmpty(keys[..i + 1]) == NonEmpty(keys[..i]) + if keys[i] == "" then {} else {keys[i]}
  {
    var less, more := keys[..i], keys[..i + 1];
    assert more == less + [keys[i]];
    forall x ensures x in NonEmpty(more) <==> x in NonEmpty(less) + (if keys[i] == "" then {} else {keys[i]}) {
      if x in NonEmpty(less) {
        var j :| 0 <= j < |less| && less[j] == x;
        assert more[j] == x;
      }
      assert more[i] == keys[i];
    }
  }

  method RegisterImage(env: Env, before: map<string, string>, ref: string) returns (aliases: map<string, string>)
    ensures forall key :: Registered(before, aliases, ref, Keys(env, ref), key)
  {
    aliases := before;
    var variants := Variants(ref);
    ghost var all := NormalizedVariants(env, ref);
    for i := 0 to 7
      invariant forall key :: Registered(before, aliases, ref, NonEmpty(all[..i]), key)
    {
      ghost var previous, keys, more := aliases, NonEmpty(all[..i]), NonEmpty(all[..i + 1]);
      aliases := RegisterImageAlias(env, aliases, variants[i], ref);
      NonEmptyNext(all, i);
      forall key ensures Registered(before, aliases, ref, more, key) {
        assert Registered(before, previous, ref, keys, key);
      }
    }
    assert all[..7] == all;
  }

  method BuildPathAliasMap(env: Env, images: seq<string>) returns (aliases: map<string, string>)
    ensures IsAliasMap(env, images, aliases)
  {
    aliases := map[];
    for i := 0 to |images|
      invariant IsAliasMap(env, images[..i], aliases)
    {
      ghost var previous, more := aliases, images[..i + 1];
      aliases := RegisterImage(env, aliases, images[i]);
      assert more[..i] == images[..i];
      forall key ensures Aliased(env, more, aliases, key) {
        assert Aliased(env, images[..i], previous, key);
        assert Registered(previous, aliases, images[i], Keys(env, images[i]), key);
      }
    }
    assert images[..|images|] == images;
  }

  // ---------- Every value of the map is a fixed point ----------

  lemma PlainBase(ref: string)
    requires IsPlainImage(ref)
    ensures IsPlain(BaseName(ref)) && IsPlain(InImages(BaseName(ref)))
  {
    var base := BaseName(ref);
    BaseNameChars(ref);
    forall i | 0 <= i < |base| ensures base[i] !in WHITESPACE && base[i] !in SPECIAL {
      assert base[i] == ref[|ref| - |base| + i];
    }
    NoDotSlash(base);
    InImagesPlain(base);
  }

  lemma NoDotSlash(base: string)
    requires '/' !in base
    ensures !("./" <= base)
  {
    if |base| >= 2 {
      assert base[1] in base;
    }
  }

  lemma InImagesPlain(base: string)
    requires base != "" && forall i :: 0 <= i < |base| ==> base[i] !in WHITESPACE && base[i] !in SPECIAL
    ensures IsPlain(InImages(base))
  {
    var s := InImages(base);
    assert s[0] == 'i';
    assert IsPlain("images/");
    forall i | 0 <= i < |s| ensures s[i] !in WHITESPACE && s[i] !in SPECIAL {
      if i < 7 {
        assert s[i] == "images/"[i];
      } else {
        assert s[i] == base[i - 7];
      }
    }
  }

  lemma RepeatedKeys(a: string, b: string, c: string)
    requires a != "" && b != "" && c != ""
    ensures NonEmpty([a, b, c, a, c, a, c]) == {a, b, c}
  {
    var keys := [a, b, c, a, c, a, c];
    assert keys[0] == a && keys[1] == b && keys[2] == c;
  }

  // The names a plain image goes by: its own, its base name, and its base name in images/.
  function Spellings(ref: string): set<string> {
    {ref, BaseName(ref), InImages(BaseName(ref))}
  }

  lemma PlainKeys(env: Env, ref: string)
    requires Valid(env) && IsPlainImage(ref)
    ensures Keys(env, ref) == Spellings(ref)
  {
    var base := BaseName(ref);
    var there := InImages(base);
    PlainBase(ref);
    assert MeansItself(env, ref);
    assert MeansItself(env, base);
    assert MeansItself(env, there);
    var keys, variants := NormalizedVariants(env, ref), Variants(ref);
    assert variants[3] == "<" + ref + ">" && variants[4] == "<" + there + ">";
    assert variants[5] == "&lt;" + ref + "&gt;" && variants[6] == "&lt;" + there + "&gt;";
    assert keys == [ref, base, there, ref, there, ref, there];
    RepeatedKeys(ref, base, there);
  }

  // If one image goes by another one's name, it goes by all the names the other one goes by.
  lemma SpellingsAbsorb(ref: string, other: string)
    requires ref in Spellings(other)
    ensures Spellings(ref) <= Spellings(other)
  {
    BaseNameChars(other);
    BaseNameOf("images", BaseName(other));
    assert "images" + "/" + BaseName(other) == InImages(BaseName(other));
  }

  predicate AllPlain(images: seq<string>) {
    forall i :: 0 <= i < |images| ==> IsPlainImage(images[i])
  }

  // Whatever the base names and the order of the images: every value is a stored image and its own alias, and its
  // keys are spellings of it.
  lemma {:induction false} ValueIsFixed(env: Env, images: seq<string>, key: string)
    requires Valid(env) && AllPlain(images) && AliasOf(env, images, key).Some?
    ensures var v := AliasOf(env, images, key).value;
      v in images && AliasOf(env, images, v) == Some(v) && key in Spellings(v)
  {
    var last, front := images[|images| - 1], images[..|images| - 1];
    PlainKeys(env, last);
    if key !in Spellings(last) {
      ValueIsFixed(env, front, key);
      var v := AliasOf(env, front, key).value;
      if v in Spellings(last) {
        SpellingsAbsorb(v, last);
      }
    }
  }

  lemma MapIsFixed(env: Env, images: seq<string>, aliases: map<string, string>, key: string)
    requires Valid(env) && AllPlain(images) && IsAliasMap(env, images, aliases) && key in aliases
    ensures var v := aliases[key];
      v in images && v in aliases && aliases[v] == v && IsPlainImage(v)
  {
    assert Aliased(env, images, aliases, key);
    ValueIsFixed(env, images, key);
    assert Aliased(env, images, aliases, aliases[key]);
  }

  // ---------- Resolving a reference ----------

  // The images with a number in their names, in the order given.
  function Numbered(env: Env, refs: seq<string>): seq<(nat, string)> {
    if refs == [] then []
    else
      var last := refs[|refs| - 1];
      var number := env.fileNumber(BaseName(last));
      Numbered(env, refs[..|refs| - 1]) + if number.Some? then [(number.value, last)] else []
  }

  // Insertion behind everything that is not greater, as a stable sort does.
  function Insert(sorted: seq<(nat, string)>, x: (nat, string)): (r: seq<(nat, string)>)
    ensures multiset(r) == multiset(sorted) + multiset{x}
  {
    if sorted == [] || sorted[|sorted| - 1].0 <= x.0 then sorted + [x]
    else
      var front, last := sorted[..|sorted| - 1], sorted[|sorted| - 1];
      assert sorted == front + [last];
      Insert(front, x) + [last]
  }

  function SortByNumber(items: seq<(nat, string)>): (r: seq<(nat, string)>)
    ensures multiset(r) == multiset(items)
  {
    if items == [] then []
    else
      var front, last := items[..|items| - 1], items[|items| - 1];
      assert items == front + [last];
      Insert(SortByNumber(front), last)
  }

  function FirstNumbered(items: seq<(nat, string)>, number: nat): Option<string> {
    if items == [] then None
    else if items[0].0 == number then Some(items[0].1)
    else FirstNumbered(items[1..], number)
  }

  // By number: an image with that very number, or else the one at that position.
  function ByNumber(items: seq<(nat, string)>, number: nat): Option<string> {
    if FirstNumbered(items, number).Some? then FirstNumbered(items, number)
    else if 1 <= number <= |items| then Some(items[number - 1].1)
    else None
  }

  function Resolve(env: Env, aliases: map<string, string>, url: string): Option<string> {
    var key := env.normalize(url);
    var base := BaseName(key);
    if key == "" || "data:" <= key then None
    else if key in aliases then Some(aliases[key])
    else if base in aliases then Some(aliases[base])
    else if InImages(base) in aliases then Some(aliases[InImages(base)])
    else match env.fileNumber(base) {
      case None => None
      case Some(number) => ByNumber(SortByNumber(Numbered(env, env.order(aliases.Values))), number)
    }
  }

  method ResolveImageRef(env: Env, aliases: map<string, string>, url: string) returns (r: Option<string>)
    ensures r == Resolve(env, aliases, url)
  {
    var key := env.normalize(url);
    if key == "" || "data:" <= key {
      return None;
    }
    if key in aliases {
      return Some(aliases[key]);
    }
    var base := BaseName(key);
    for c := 0 to 2
      invariant c > 0 ==> base !in aliases
      invariant c > 1 ==> InImages(base) !in aliases
    {
      var candidate := if c == 0 then base else InImages(base);
      if candidate in aliases {
        return Some(aliases[candidate]);
      }
    }
    var number := env.fileNumber(base);
    if number.None? {
      return None;
    }
    var refs := env.order(aliases.Values);
    var numbered: seq<(nat, string)> := [];
    for i := 0 to |refs|
      invariant numbered == Numbered(env, refs[..i])
    {
      assert refs[..i + 1][..i] == refs[..i];
      var n := env.fileNumber(BaseName(refs[i]));
      if n.Some? {
        numbered := numbered + [(n.value, refs[i])];
      }
    }
    assert refs[..|refs|] == refs;
    numbered := SortByNumber(numbered);
    assert numbered[0..] == numbered;
    for i := 0 to |numbered|
      invariant FirstNumbered(numbered[i..], number.value) == FirstNumbered(numbered, number.value)
    {
      assert numbered[i..][1..] == numbered[i + 1..];
      if numbered[i].0 == number.value {
        return Some(numbered[i].1);
      }
    }
    if 1 <= number.value <= |numbered| {
      return Some(numbered[number.value - 1].1);
    }
    return None;
  }

  lemma {:induction false} NumberedItems(env: Env, refs: seq<string>, x: (nat, string))
    requires x in Numbered(env, refs)
    ensures x.1 in refs && env.fileNumber(BaseName(x.1)) == Some(x.0)
  {
    var last := refs[|refs| - 1];
    if x.1 != last || x in Numbered(env, refs[..|refs| - 1]) {
      NumberedItems(env, refs[..|refs| - 1], x);
    }
  }

  lemma {:induction false} FirstNumberedItem(items: seq<(nat, string)>, number: nat)
    ensures FirstNumbered(items, number).Some? ==> (number, FirstNumbered(items, number).value) in items
    ensures FirstNumbered(items, number).None? ==> forall x :: x in items ==> x.0 != number
  {
    if items != [] {
      FirstNumberedItem(items[1..], number);
      assert items == [items[0]] + items[1..];
    }
  }

  lemma ByNumberStored(env: Env, refs: seq<string>, number: nat)
    ensures var r := ByNumber(SortByNumber(Numbered(env, refs)), number);
      r.Some? ==> r.value in refs
  {
    var items := SortByNumber(Numbered(env, refs));
    FirstNumberedItem(items, number);
    forall x | x in items ensures x.1 in refs {
      assert x in multiset(items);
      NumberedItems(env, refs, x);
    }
  }

  // A reference resolves to a stored image only.
  lemma ResolvesToImage(env: Env, images: seq<string>, aliases: map<string, string>, url: string)
    requires Valid(env) && AllPlain(images) && IsAliasMap(env, images, aliases) && Resolve(env, aliases, url).Some?
    ensures var r := Resolve(env, aliases, url).value;
      r in images && IsPlainImage(r) && r in aliases && aliases[r] == r
  {
    var key := env.normalize(url);
    var base := BaseName(key);
    var r := Resolve(env, aliases, url).value;
    if key !in aliases && base !in aliases && InImages(base) !in aliases {
      ByNumberStored(env, env.order(aliases.Values), env.fileNumber(base).value);
    }
    assert r in aliases.Values;
    var k :| k in aliases && aliases[k] == r;
    MapIsFixed(env, images, aliases, k);
  }

  // The name of the image a reference resolves to resolves to itself, unless it reads as a data URL and is left
  // alone.
  lemma ResolveTwice(env: Env, images: seq<string>, aliases: map<string, string>, url: string)
    requires Valid(env) && AllPlain(images) && IsAliasMap(env, images, aliases) && Resolve(env, aliases, url).Some?
    ensures var r := Resolve(env, aliases, url).value;
      Resolve(env, aliases, r) == if "data:" <= r then None else Some(r)
  {
    var r := Resolve(env, aliases, url).value;
    ResolvesToImage(env, images, aliases, url);
    assert MeansItself(env, r);
  }
}
