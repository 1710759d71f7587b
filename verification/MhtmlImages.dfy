// Storing the images of a web archive (mhtml_parser.py) under names that never collide.
module MhtmlImages {
  import opened Text

  // An image part: the file name its Content-Location gives ("" when it gives none), the extension for its
  // content type, and its decoded data ("" when there is none).
  datatype ImagePart = ImagePart(filename: string, ext: string, data: string)

  // The position of the last dot that has something other than dots before it, where os.path.splitext cuts a
  // name without slashes; the whole length when there is none.
  function CutAt(name: string, n: nat): (k: nat)
    requires n <= |name|
    ensures k <= |name|
  {
    if n == 0 then |name|
    else if name[n - 1] == '.' then
      if exists i :: 0 <= i < n - 1 && name[i] != '.' then n - 1 else |name|
    else CutAt(name, n - 1)
  }

  function SplitExt(name: string): (r: (string, string))
    ensures r.0 + r.1 == name
  {
    var k := CutAt(name, |name|);
    (name[..k], name[k..])
  }

  // The extension begins at the last dot, unless everything before that is dots too.
  lemma SplitExtIs(stem: string, ext: string)
    requires '.' !in ext
    ensures SplitExt(stem + "." + ext) ==
      if exists i :: 0 <= i < |stem| && stem[i] != '.' then (stem, "." + ext) else (stem + "." + ext, "")
  {
    var name := stem + "." + ext;
    CutAtDot(name, |stem|, |name|);
    assert name[..|stem|] == stem && name[|stem|..] == "." + ext && name[|name|..] == "" && name[..|name|] == name;
    assert forall i :: 0 <= i < |stem| ==> name[i] == stem[i];
  }

  lemma {:induction false} CutAtDot(name: string, dot: nat, n: nat)
    requires dot < n <= |name| && name[dot] == '.' && forall i :: dot < i < n ==> name[i] != '.'
    ensures CutAt(name, n) == if exists i :: 0 <= i < dot && name[i] != '.' then dot else |name|
  {
    if n > dot + 1 {
      CutAtDot(name, dot, n - 1);
    }
  }

  lemma SplitExtNone(name: string)
    requires '.' !in name
    ensures SplitExt(name) == (name, "")
  {
    CutAtNone(name, |name|);
    assert name[..|name|] == name;
  }

  lemma {:induction false} CutAtNone(name: string, n: nat)
    requires n <= |name| && '.' !in name
    ensures CutAt(name, n) == |name|
  {
    if n > 0 {
      CutAtNone(name, n - 1);
    }
  }

  function Candidate(stem: string, ext: string, suffix: nat): string {
    "images/" + stem + "_" + Decimal(suffix) + ext
  }

  lemma CandidateInjective(stem: string, ext: string, m: nat, n: nat)
    ensures Candidate(stem, ext, m) == Candidate(stem, ext, n) ==> m == n
  {
    var front := "images/" + stem + "_";
    if Candidate(stem, ext, m) == Candidate(stem, ext, n) {
      var c := Candidate(stem, ext, m);
      assert c == front + Decimal(m) + ext && c == front + Decimal(n) + ext;
      assert |Decimal(m)| == |Decimal(n)|;
      assert Decimal(m) == c[|front|..|c| - |ext|];
      assert Decimal(n) == c[|front|..|c| - |ext|];
      DecimalInjective(m, n);
    }
  }

  // The plain name and the candidates with suffixes 2..n-1.
  ghost function Tried(stem: string, ext: string, n: nat): set<string>
    requires n >= 2
  {
    if n == 2 then {"images/" + stem + ext} else Tried(stem, ext, n - 1) + {Candidate(stem, ext, n - 1)}
  }

  lemma {:induction false} TriedMember(stem: string, ext: string, n: nat, x: string)
    requires n >= 2
    ensures x in Tried(stem, ext, n) <==>
      x == "images/" + stem + ext || exists k: nat :: 2 <= k < n && x == Candidate(stem, ext, k)
  {
    if n > 2 {
      TriedMember(stem, ext, n - 1, x);
    }
  }

  lemma {:induction false} TriedCount(stem: string, ext: string, n: nat)
    requires n >= 2
    ensures |Tried(stem, ext, n)| == n - 1
  {
    if n > 2 {
      TriedCount(stem, ext, n - 1);
      var last := Candidate(stem, ext, n - 1);
      TriedMember(stem, ext, n - 1, last);
      assert |last| > |"images/" + stem + ext|;
      if k: nat :| 2 <= k < n - 1 && last == Candidate(stem, ext, k) {
        CandidateInjective(stem, ext, k, n - 1);
      }
    }
  }

  lemma {:induction false} SubsetCount<T>(a: set<T>, b: set<T>)
    requires a <= b
    ensures |a| <= |b|
  {
    if a != {} {
      var x :| x in a;
      SubsetCount(a - {x}, b - {x});
    }
  }

  // If the plain name and every candidate below n is taken, at least n - 1 names are.
  lemma TakenCount(stem: string, ext: string, n: nat, names: set<string>)
    requires n >= 2 && "images/" + stem + ext in names
    requires forall k: nat :: 2 <= k < n ==> Candidate(stem, ext, k) in names
    ensures n - 1 <= |names|
  {
    forall x | x in Tried(stem, ext, n) ensures x in names {
      TriedMember(stem, ext, n, x);
    }
    TriedCount(stem, ext, n);
    SubsetCount(Tried(stem, ext, n), names);
  }

  // Among finitely many stored names some generated id is always unused.
  lemma {:induction false} SomeIdFree(names: set<string>, ext: string, n: nat) returns (id: string)
    requires forall k: nat :: k < n ==> Candidate("", ext, k) in names
    ensures "images/" + id + ext !in names
    decreases |names| + 1 - n
  {
    if Candidate("", ext, n) in names {
      assert n <= |names| by {
        FirstCandidates(ext, n, names);
      }
      id := SomeIdFree(names, ext, n + 1);
    } else {
      id := "_" + Decimal(n);
      assert "images/" + id + ext == Candidate("", ext, n) by {
        assert "images/" + "" + "_" == "images/_";
        assert "images/" + ("_" + Decimal(n)) == "images/" + "_" + Decimal(n);
      }
    }
  }

  lemma {:induction false} FirstCandidates(ext: string, n: nat, names: set<string>)
    requires forall k: nat :: k < n ==> Candidate("", ext, k) in names
    ensures n <= |names|
  {
    if n > 0 {
      var last := Candidate("", ext, n - 1);
      forall k: nat | k < n - 1 ensures Candidate("", ext, k) in names - {last} {
        CandidateInjective("", ext, k, n - 1);
      }
      FirstCandidates(ext, n - 1, names - {last});
    }
  }

  // _image_path_for_part: never a name already stored, found after at most one candidate more than there are
  // stored images, and with the smallest free suffix.
  method ImagePathForPart(part: ImagePart, images: map<string, string>) returns (path: string, ghost candidates: nat)
    ensures path !in images
    ensures 1 <= candidates <= |images| + 1
    ensures part.filename != "" ==>
      var name := if SplitExt(part.filename).1 == "" then part.filename + part.ext else part.filename;
      var (stem, ext) := SplitExt(name);
      if "images/" + name !in images then path == "images/" + name
      else
        (candidates >= 2 && path == "images/" + stem + "_" + Decimal(candidates) + ext &&
         forall k: nat :: 2 <= k < candidates ==> "images/" + stem + "_" + Decimal(k) + ext in images)
    ensures part.filename == "" ==> exists id :: path == "images/" + id + part.ext
  {
    if part.filename == "" {
      var free := SomeIdFree(images.Keys, part.ext, 0);
      assert "images/" + free + part.ext !in images;
      var id :| "images/" + id + part.ext !in images;  // a fresh generated id
      return "images/" + id + part.ext, 1;
    }
    var filename := part.filename;
    if SplitExt(filename).1 == "" {
      filename := filename + part.ext;
    }
    path := "images/" + filename;
    if path !in images {
      return path, 1;
    }
    var (stem, ext) := SplitExt(filename);
    assert "images/" + stem + ext == path by {
      assert stem + ext == filename;
      assert ("images/" + stem) + ext == "images/" + (stem + ext);
    }
    var suffix := 2;
    while true
      invariant 2 <= suffix
      invariant forall k: nat :: 2 <= k < suffix ==> Candidate(stem, ext, k) in images
      decreases |images| + 2 - suffix
    {
      TakenCount(stem, ext, suffix, images.Keys);
      assert |images.Keys| == |images|;
      var candidate := Candidate(stem, ext, suffix);
      if candidate !in images {
        forall k: nat | 2 <= k < suffix ensures "images/" + stem + "_" + Decimal(k) + ext in images {
          assert Candidate(stem, ext, k) in images;
        }
        return candidate, suffix;
      }
      suffix := suffix + 1;
    }
  }

  function NonEmpty(parts: seq<ImagePart>): seq<ImagePart> {
    if parts == [] then []
    else if parts[|parts| - 1].data == "" then NonEmpty(parts[..|parts| - 1])
    else NonEmpty(parts[..|parts| - 1]) + [parts[|parts| - 1]]
  }

  // The image branch of the part loop: every non-empty part is stored under a name of its own.
  method StoreImages(parts: seq<ImagePart>) returns (images: map<string, string>, paths: seq<string>)
    ensures |images| == |paths| == |NonEmpty(parts)|
    ensures forall i, j :: 0 <= i < j < |paths| ==> paths[i] != paths[j]
    ensures forall i :: 0 <= i < |paths| ==> paths[i] in images && images[paths[i]] == NonEmpty(parts)[i].data
  {
    images, paths := map[], [];
    assert parts[..0] == [];
    for n := 0 to |parts|
      invariant |images| == |paths| == |NonEmpty(parts[..n])|
      invariant forall i, j :: 0 <= i < j < |paths| ==> paths[i] != paths[j]
      invariant forall i :: 0 <= i < |paths| ==> paths[i] in images && images[paths[i]] == NonEmpty(parts[..n])[i].data
    {
      var part := parts[n];
      assert parts[..n + 1][..n] == parts[..n];
      if part.data != "" {
        var path, _ := ImagePathForPart(part, images);
        images := images[path := part.data];
        paths := paths + [path];
      }
    }
    assert parts[..|parts|] == parts;
  }
}
