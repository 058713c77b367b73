/**
 * The upload page: choosing room photos, turning a title into a URL slug,
 * and the upload handler's guards, state flags and the design record it
 * asks the backend to insert.
 */
module Upload {
  import opened Wrappers
  import opened Ascii
  import opened Ui

  // ---------------------------------------------------------------------------
  // generateSlug
  // ---------------------------------------------------------------------------

  /** A character matched by `[^a-z0-9]`. */
  predicate IsSeparator(c: char) { !IsLowerAlnum(c) }

  /** Only `[a-z0-9]` and `-`. */
  predicate IsSlugText(s: string) {
    forall i :: 0 <= i < |s| ==> IsLowerAlnum(s[i]) || s[i] == '-'
  }

  /** No two adjacent hyphens. */
  predicate NoDoubleHyphen(s: string) {
    forall i :: 0 <= i < |s| - 1 ==> !(s[i] == '-' && s[i + 1] == '-')
  }

  /** Neither the first nor the last character is a hyphen. */
  predicate NoEdgeHyphen(s: string) {
    s != [] ==> s[0] != '-' && s[|s| - 1] != '-'
  }

  /** The letters and digits of `s`, in order. */
  function Alnums(s: string): string {
    if s == [] then [] else (if IsLowerAlnum(s[0]) then [s[0]] else []) + Alnums(s[1..])
  }

  /** The rest of `s` after its leading run of separators. */
  function SkipSeparators(s: string): (r: string)
    ensures |r| <= |s|
    ensures r == s[|s| - |r|..]
    ensures r != [] ==> IsLowerAlnum(r[0])
    ensures Alnums(r) == Alnums(s)
  {
    if s != [] && IsSeparator(s[0]) then
      var t := s[1..];
      var r := SkipSeparators(t);
      assert t[|t| - |r|..] == s[|s| - |r|..];
      assert Alnums(s) == Alnums(t);
      r
    else
      s
  }

  /** Skipping never passes the last character when that is a letter or digit. */
  lemma {:induction false} SkipKeepsLast(s: string)
    requires s != [] && IsLowerAlnum(s[|s| - 1])
    ensures SkipSeparators(s) != [] && SkipSeparators(s)[|SkipSeparators(s)| - 1] == s[|s| - 1]
    decreases |s|
  {
    if IsSeparator(s[0]) {
      SkipKeepsLast(s[1..]);
    }
  }

  /** A run of separators in front of a letter or digit, or of nothing, is skipped entirely. */
  lemma {:induction false} SkipSeparatorRun(sep: string, b: string)
    requires forall i :: 0 <= i < |sep| ==> IsSeparator(sep[i])
    requires b == [] || IsLowerAlnum(b[0])
    ensures SkipSeparators(sep + b) == b
  {
    if sep == [] {
      assert sep + b == b;
    } else {
      assert (sep + b)[0] == sep[0];
      assert (sep + b)[1..] == sep[1..] + b;
      SkipSeparatorRun(sep[1..], b);
    }
  }

  /** Skipping stops inside `x` when `x` ends with a letter or digit. */
  lemma {:induction false} SkipSeparatorsAppend(x: string, y: string)
    requires x != [] && IsLowerAlnum(x[|x| - 1])
    ensures SkipSeparators(x + y) == SkipSeparators(x) + y
  {
    assert (x + y)[0] == x[0];
    if IsSeparator(x[0]) {
      assert (x + y)[1..] == x[1..] + y;
      SkipSeparatorsAppend(x[1..], y);
    }
  }

  /** `.replace(/[^a-z0-9]+/g, '-')`: every maximal run of separators becomes one hyphen. */
  function Collapse(s: string): (r: string)
    ensures IsSlugText(r) && NoDoubleHyphen(r)
    ensures Alnums(r) == Alnums(s)
    ensures s != [] ==> r != [] && (IsLowerAlnum(s[0]) ==> r[0] == s[0]) && (IsSeparator(s[0]) ==> r[0] == '-')
    decreases |s|
  {
    if s == [] then []
    else if IsLowerAlnum(s[0]) then
      var r := [s[0]] + Collapse(s[1..]);
      AlnumsCons(s[0], s[1..]);
      AlnumsCons(s[0], Collapse(s[1..]));
      r
    else
      var rest := SkipSeparators(s[1..]);
      var r := "-" + Collapse(rest);
      AlnumsCons(s[0], s[1..]);
      AlnumsCons('-', Collapse(rest));
      r
  }

  /** The step of `Collapse` on a letter or digit. */
  lemma CollapseAlnum(c: char, t: string)
    requires IsLowerAlnum(c)
    ensures Collapse([c] + t) == [c] + Collapse(t)
  {
    assert ([c] + t)[1..] == t;
  }

  /** The step of `Collapse` on a separator. */
  lemma CollapseSeparator(c: char, t: string)
    requires IsSeparator(c)
    ensures Collapse([c] + t) == "-" + Collapse(SkipSeparators(t))
  {
    assert ([c] + t)[1..] == t;
  }

  /** Collapsing a string that ends with a letter or digit and then more text collapses the two parts apart. */
  lemma {:induction false} CollapseAppend(a: string, b: string)
    requires a != [] && IsLowerAlnum(a[|a| - 1])
    ensures Collapse(a + b) == Collapse(a) + Collapse(b)
    decreases |a|
  {
    var c, t := a[0], a[1..];
    assert a == [c] + t;
    if IsLowerAlnum(c) {
      if t != [] {
        CollapseAppend(t, b);
      }
      CollapseAppendAlnum(c, t, b);
    } else {
      SkipSeparatorsAppend(t, b);
      var rest := SkipSeparators(t);
      SkipKeepsLast(t);
      CollapseAppend(rest, b);
      CollapseAppendSeparator(c, t, b);
    }
  }

  /** The step of `CollapseAppend` on a leading letter or digit. */
  lemma CollapseAppendAlnum(c: char, t: string, b: string)
    requires IsLowerAlnum(c)
    requires t != [] ==> Collapse(t + b) == Collapse(t) + Collapse(b)
    ensures Collapse([c] + t + b) == Collapse([c] + t) + Collapse(b)
  {
    Concat([c], t, b);
    CollapseAlnum(c, t + b);
    CollapseAlnum(c, t);
    if t == [] {
      assert t + b == b;
      assert Collapse(t) == [];
    }
    Concat([c], Collapse(t), Collapse(b));
  }

  /** The step of `CollapseAppend` on a leading separator. */
  lemma CollapseAppendSeparator(c: char, t: string, b: string)
    requires IsSeparator(c)
    requires SkipSeparators(t + b) == SkipSeparators(t) + b
    requires Collapse(SkipSeparators(t) + b) == Collapse(SkipSeparators(t)) + Collapse(b)
    ensures Collapse([c] + t + b) == Collapse([c] + t) + Collapse(b)
  {
    Concat([c], t, b);
    CollapseSeparator(c, t + b);
    CollapseSeparator(c, t);
    Concat("-", Collapse(SkipSeparators(t)), Collapse(b));
  }

  /** Concatenation is associative. */
  lemma Concat<T>(x: seq<T>, y: seq<T>, z: seq<T>)
    ensures x + (y + z) == x + y + z
  {
  }

  /**
   * Where the hyphens go: a maximal run of separators between two letters or
   * digits (or an end of the string) becomes exactly one `-`, in its place.
   */
  lemma CollapseJoin(a: string, sep: string, b: string)
    requires a == [] || IsLowerAlnum(a[|a| - 1])
    requires sep != [] && forall i :: 0 <= i < |sep| ==> IsSeparator(sep[i])
    requires b == [] || IsLowerAlnum(b[0])
    ensures Collapse(a + sep + b) == Collapse(a) + "-" + Collapse(b)
  {
    CollapseLeadingRun(sep, b);
    if a == [] {
      assert a + sep == sep;
      assert Collapse(a) == [];
    } else {
      Concat(a, sep, b);
      CollapseAppend(a, sep + b);
      Concat(Collapse(a), "-", Collapse(b));
    }
  }

  /** A leading run of separators becomes one hyphen. */
  lemma CollapseLeadingRun(sep: string, b: string)
    requires sep != [] && forall i :: 0 <= i < |sep| ==> IsSeparator(sep[i])
    requires b == [] || IsLowerAlnum(b[0])
    ensures Collapse(sep + b) == "-" + Collapse(b)
  {
    var c, t := sep[0], sep[1..];
    assert sep == [c] + t;
    Concat([c], t, b);
    CollapseSeparator(c, t + b);
    assert forall i :: 0 <= i < |t| ==> IsSeparator(t[i]) by {
      forall i | 0 <= i < |t| ensures IsSeparator(t[i]) {
        assert t[i] == sep[i + 1];
      }
    }
    SkipSeparatorRun(t, b);
  }

  /** `Alnums` of a string with a known first character. */
  lemma AlnumsCons(c: char, s: string)
    ensures Alnums([c] + s) == (if IsLowerAlnum(c) then [c] else []) + Alnums(s)
  {
    assert ([c] + s)[1..] == s;
  }

  /** `.replace(/(^-|-$)/g, '')`: one leading and one trailing hyphen go; a lone hyphen goes once. */
  function TrimHyphens(s: string): string {
    var a := if |s| > 0 && s[0] == '-' then 1 else 0;
    var b := if |s| > a && s[|s| - 1] == '-' then |s| - 1 else |s|;
    s[a..b]
  }

  /** Trimming removes at most one leading and one trailing hyphen, removes those it finds, and keeps the rest. */
  lemma TrimHyphensStrips(s: string)
    ensures exists p, q :: (p == "" || p == "-") && (q == "" || q == "-") && s == p + TrimHyphens(s) + q
    ensures NoEdgeHyphen(s) ==> TrimHyphens(s) == s
    ensures s != [] && s[0] == '-' ==> |TrimHyphens(s)| < |s| && TrimHyphens(s) == s[1..1 + |TrimHyphens(s)|]
    ensures |s| >= 2 && s[|s| - 1] == '-' ==> TrimHyphens(s) == s[|s| - 1 - |TrimHyphens(s)|..|s| - 1]
    ensures |s| >= 2 && s[0] == '-' && s[|s| - 1] == '-' ==> TrimHyphens(s) == s[1..|s| - 1]
  {
    var a := if |s| > 0 && s[0] == '-' then 1 else 0;
    var b := if |s| > a && s[|s| - 1] == '-' then |s| - 1 else |s|;
    var p := s[..a];
    var q := s[b..];
    assert p == "" || p == "-";
    assert q == "" || q == "-";
    assert TrimHyphens(s) == s[a..b];
    assert s == p + s[a..b] + q;
  }

  /** `generateSlug(title)`. */
  function GenerateSlug(title: string): string {
    TrimHyphens(Collapse(LowerStr(title)))
  }

  /** A well-formed slug: the shape every result of `GenerateSlug` has. */
  predicate IsSlug(s: string) {
    IsSlugText(s) && NoDoubleHyphen(s) && NoEdgeHyphen(s)
  }

  /** Trimming a hyphen-collapsed string leaves no hyphen at either end and keeps the rest of its shape. */
  lemma TrimCollapsed(s: string)
    requires IsSlugText(s) && NoDoubleHyphen(s)
    ensures IsSlug(TrimHyphens(s))
    ensures Alnums(TrimHyphens(s)) == Alnums(s)
  {
    TrimLeavesSlug(s);
    TrimKeepsAlnums(s);
  }

  /** Trimming a hyphen-collapsed string leaves no hyphen at either end. */
  lemma TrimLeavesSlug(s: string)
    requires IsSlugText(s) && NoDoubleHyphen(s)
    ensures IsSlug(TrimHyphens(s))
  {
    var a := if |s| > 0 && s[0] == '-' then 1 else 0;
    var b := if |s| > a && s[|s| - 1] == '-' then |s| - 1 else |s|;
    var t := s[a..b];
    assert t == TrimHyphens(s);
    if t != [] {
      assert t[0] == s[a];
      assert t[|t| - 1] == s[b - 1];
      if a == 1 {
        assert s[0] == '-' && s[1] != '-';
      }
      if b == |s| - 1 {
        assert s[|s| - 1] == '-' && s[|s| - 2] != '-';
      }
    }
  }

  /** Trimming removes only hyphens, so the letters and digits stay. */
  lemma TrimKeepsAlnums(s: string)
    ensures Alnums(TrimHyphens(s)) == Alnums(s)
  {
    var a := if |s| > 0 && s[0] == '-' then 1 else 0;
    var b := if |s| > a && s[|s| - 1] == '-' then |s| - 1 else |s|;
    var p, t, q := s[..a], s[a..b], s[b..];
    assert t == TrimHyphens(s);
    assert s == p + t + q;
    assert p == [] || p == "-";
    assert q == [] || q == "-";
    AlnumsAppend(p + t, q);
    AlnumsAppend(p, t);
  }

  /** The letters and digits of a concatenation are those of each part, in order. */
  lemma {:induction false} AlnumsAppend(x: string, y: string)
    ensures Alnums(x + y) == Alnums(x) + Alnums(y)
  {
    if x != [] {
      assert (x + y)[1..] == x[1..] + y;
      AlnumsAppend(x[1..], y);
    } else {
      assert x + y == y;
    }
  }

  /** A slug holds only `[a-z0-9-]`, never starts or ends with a hyphen and never has two in a row. */
  lemma SlugIsWellFormed(title: string)
    ensures IsSlug(GenerateSlug(title))
  {
    TrimCollapsed(Collapse(LowerStr(title)));
  }

  /** The letters and digits of the lower-cased title survive, in order, and no others appear. */
  lemma SlugKeepsAlnums(title: string)
    ensures Alnums(GenerateSlug(title)) == Alnums(LowerStr(title))
  {
    TrimCollapsed(Collapse(LowerStr(title)));
  }

  /** Two words joined by any run of separators give the two lower-cased words joined by one hyphen. */
  lemma SlugJoinsWords(a: string, sep: string, b: string)
    requires a != [] && forall i :: 0 <= i < |a| ==> IsLowerAlnum(Lower(a[i]))
    requires sep != [] && forall i :: 0 <= i < |sep| ==> IsSeparator(Lower(sep[i]))
    requires b != [] && forall i :: 0 <= i < |b| ==> IsLowerAlnum(Lower(b[i]))
    ensures GenerateSlug(a + sep + b) == LowerStr(a) + "-" + LowerStr(b)
  {
    LowerStrJoin(a, sep, b);
    LowerWord(a);
    LowerWord(b);
    WordsJoin(LowerStr(a), LowerStr(sep), LowerStr(b));
  }

  /** Lower-casing `a + sep + b` lower-cases each of the three parts. */
  lemma LowerStrJoin(a: string, sep: string, b: string)
    ensures LowerStr(a + sep + b) == LowerStr(a) + LowerStr(sep) + LowerStr(b)
  {
    LowerStrAppend(a, sep);
    LowerStrAppend(a + sep, b);
  }

  /** A word whose every character lower-cases to a letter or digit lower-cases to `[a-z0-9]` text. */
  lemma LowerWord(a: string)
    requires forall i :: 0 <= i < |a| ==> IsLowerAlnum(Lower(a[i]))
    ensures forall i :: 0 <= i < |LowerStr(a)| ==> IsLowerAlnum(LowerStr(a)[i])
  {
  }

  /** Two lower-case words around a run of separators collapse and trim to the words around one hyphen. */
  lemma WordsJoin(a: string, sep: string, b: string)
    requires a != [] && forall i :: 0 <= i < |a| ==> IsLowerAlnum(a[i])
    requires sep != [] && forall i :: 0 <= i < |sep| ==> IsSeparator(sep[i])
    requires b != [] && forall i :: 0 <= i < |b| ==> IsLowerAlnum(b[i])
    ensures TrimHyphens(Collapse(a + sep + b)) == a + "-" + b
  {
    CollapseJoin(a, sep, b);
    WordCollapse(a);
    WordCollapse(b);
    TrimKeepsWords(a, b);
  }

  /** A word of letters and digits is left as it is by the collapse. */
  lemma WordCollapse(a: string)
    requires forall i :: 0 <= i < |a| ==> IsLowerAlnum(a[i])
    ensures Collapse(a) == a
  {
    assert IsSlugText(a) && NoDoubleHyphen(a);
    CollapseFixedPoint(a);
  }

  /** Two words joined by a hyphen have no hyphen at either end, so trimming keeps them. */
  lemma TrimKeepsWords(a: string, b: string)
    requires a != [] && IsLowerAlnum(a[0])
    requires b != [] && IsLowerAlnum(b[|b| - 1])
    ensures TrimHyphens(a + "-" + b) == a + "-" + b
  {
    var c := a + "-" + b;
    assert c[0] == a[0] && c[|c| - 1] == b[|b| - 1];
    TrimHyphensStrips(c);
  }

  /** A well-formed slug is its own slug. */
  lemma {:induction false} SlugFixedPoint(s: string)
    requires IsSlug(s)
    ensures GenerateSlug(s) == s
  {
    assert NoUpper(s) by {
      forall c | c in s ensures !IsUpper(c) {
        var i :| 0 <= i < |s| && s[i] == c;
      }
    }
    NoUpperLowerStr(s);
    CollapseFixedPoint(s);
  }

  /** Collapsing leaves a string of `[a-z0-9-]` without double hyphens as it is. */
  lemma {:induction false} CollapseFixedPoint(s: string)
    requires IsSlugText(s) && NoDoubleHyphen(s)
    ensures Collapse(s) == s
    decreases |s|
  {
    if s != [] {
      var tail := s[1..];
      assert IsSlugText(tail) && NoDoubleHyphen(tail) by {
        forall i | 0 <= i < |tail| ensures IsLowerAlnum(tail[i]) || tail[i] == '-' {
          assert tail[i] == s[i + 1];
        }
        forall i | 0 <= i < |tail| - 1 ensures !(tail[i] == '-' && tail[i + 1] == '-') {
          assert tail[i] == s[i + 1] && tail[i + 1] == s[i + 2];
        }
      }
      CollapseFixedPoint(tail);
      if !IsLowerAlnum(s[0]) {
        assert tail != [] ==> s[1] != '-';
        assert SkipSeparators(tail) == tail;
      }
    }
  }

  /** `generateSlug` is idempotent. */
  lemma SlugIdempotent(title: string)
    ensures GenerateSlug(GenerateSlug(title)) == GenerateSlug(title)
  {
    SlugIsWellFormed(title);
    SlugFixedPoint(GenerateSlug(title));
  }

  // ---------------------------------------------------------------------------
  // File selection
  // ---------------------------------------------------------------------------

  /** A chosen or dropped file: its name, its MIME type and its size in bytes. */
  datatype FileInfo = FileInfo(name: string, mimeType: string, size: nat)

  predicate IsImage(f: FileInfo) { StartsWith(f.mimeType, "image/") }

  /** `files.filter(file => file.type.startsWith('image/'))`. */
  function ImageFiles(files: seq<FileInfo>): (r: seq<FileInfo>)
    ensures |r| <= |files|
    ensures forall i :: 0 <= i < |r| ==> IsImage(r[i]) && r[i] in files
    ensures forall i :: 0 <= i < |files| && IsImage(files[i]) ==> files[i] in r
  {
    if files == [] then []
    else (if IsImage(files[0]) then [files[0]] else []) + ImageFiles(files[1..])
  }

  /** The filter keeps the order of the images: it distributes over concatenation. */
  lemma {:induction false} ImageFilesAppend(a: seq<FileInfo>, b: seq<FileInfo>)
    ensures ImageFiles(a + b) == ImageFiles(a) + ImageFiles(b)
  {
    if a == [] {
      assert a + b == b;
    } else {
      assert (a + b)[0] == a[0] && (a + b)[1..] == a[1..] + b;
      ImageFilesAppend(a[1..], b);
    }
  }

  /** A list of images passes the filter unchanged. */
  lemma {:induction false} ImageFilesOfImages(files: seq<FileInfo>)
    requires forall i :: 0 <= i < |files| ==> IsImage(files[i])
    ensures ImageFiles(files) == files
  {
    if files != [] {
      ImageFilesOfImages(files[1..]);
    }
  }

  /** `files.filter((_, i) => i !== index)`. */
  function DropIndex(files: seq<FileInfo>, index: int): (r: seq<FileInfo>)
    ensures 0 <= index < |files| ==> r == files[..index] + files[index + 1..]
    ensures !(0 <= index < |files|) ==> r == files
  {
    if files == [] then []
    else (if index == 0 then [] else [files[0]]) + DropIndex(files[1..], index - 1)
  }

  // ---------------------------------------------------------------------------
  // The design record created by handleUpload
  // ---------------------------------------------------------------------------

  datatype AuthUser = AuthUser(id: string, email: string)

  datatype Vector = Vector(x: int, y: int, z: int)

  /** The initial scene stored with a new design. */
  datatype SceneState = SceneState(
    originalImage: string,
    modelUrl: string,
    furniture: seq<string>,
    wallColor: string,
    brightness: int,
    temperature: string,
    cameraPosition: Vector,
    cameraRotation: Vector)

  /** The argument of `createDesign`. */
  datatype DesignDraft = DesignDraft(
    userId: string,
    slug: string,
    title: string,
    description: string,
    roomType: string,
    designState: SceneState,
    imageUrl: string,
    thumbnailUrl: string,
    tags: seq<string>,
    isPublic: bool)

  /** The title a design gets when the room title is left empty. */
  function DefaultTitle(): string { "My Room Design" }

  /** `roomTitle || 'My Room Design'`. */
  function DesignTitle(roomTitle: string): (t: string)
    ensures t != []
    ensures roomTitle != [] ==> t == roomTitle
  {
    if roomTitle != "" then roomTitle else DefaultTitle()
  }

  /** `${generateSlug(designTitle)}-${Date.now()}`, with the clock reading as `now`. */
  function DesignSlug(title: string, now: nat): string {
    GenerateSlug(title) + "-" + NatToString(now)
  }

  /** The storage path `${user.id}/${Date.now()}-${file.name}`. */
  function StoragePath(userId: string, now: nat, file: FileInfo): string {
    userId + "/" + NatToString(now) + "-" + file.name
  }

  /** The file is stored in the user's folder, under a name that ends with a hyphen and the file's own name. */
  lemma StoragePathShape(userId: string, now: nat, file: FileInfo)
    ensures var p := StoragePath(userId, now, file);
      && |p| > |userId| + 1 + |file.name|
      && p[..|userId| + 1] == userId + "/"
      && p[|p| - |file.name|..] == file.name
      && p[|p| - |file.name| - 1] == '-'
  {
    var p := StoragePath(userId, now, file);
    var n := |file.name|;
    assert p == (userId + "/") + (NatToString(now) + "-" + file.name);
    assert p[|p| - n..] == file.name;
  }

  function NewDraft(userId: string, roomTitle: string, roomType: string, description: string,
                    publicUrl: string, modelUrl: string, thumbnailUrl: string, now: nat): DesignDraft
  {
    var title := DesignTitle(roomTitle);
    DesignDraft(
      userId,
      DesignSlug(title, now),
      title,
      description,
      roomType,
      SceneState(publicUrl, modelUrl, [], "#ffffff", 70, "warm", Vector(5, 2, 5), Vector(0, 0, 0)),
      publicUrl,
      thumbnailUrl,
      [roomType, "ai-generated"],
      false)
  }

  /** A new design: its title defaults, its tags and visibility are fixed, and its slug is slug text. */
  lemma DraftShape(userId: string, roomTitle: string, roomType: string, description: string,
                   publicUrl: string, modelUrl: string, thumbnailUrl: string, now: nat)
    ensures var d := NewDraft(userId, roomTitle, roomType, description, publicUrl, modelUrl, thumbnailUrl, now);
      && d.title == (if roomTitle != "" then roomTitle else "My Room Design")
      && d.tags == [roomType, "ai-generated"]
      && !d.isPublic
      && IsSlugText(d.slug)
  {
    DesignSlugShape(DesignTitle(roomTitle), now);
  }

  /** The design slug is the title's slug, a hyphen and the clock reading, which can be read back. */
  lemma DesignSlugShape(title: string, now: nat)
    ensures var s := DesignSlug(title, now);
      && IsSlugText(s)
      && exists k :: 0 <= k < |s| && s[k] == '-' && s[..k] == GenerateSlug(title) && DigitsValue(s[k + 1..]) == now
  {
    SlugIsWellFormed(title);
    SlugWithClock(GenerateSlug(title), now);
    var k := |GenerateSlug(title)|;
    assert DesignSlug(title, now)[k] == '-';
  }

  /** A slug text followed by a hyphen and a clock reading is still slug text, and the reading can be read back. */
  lemma SlugWithClock(g: string, now: nat)
    requires IsSlugText(g)
    ensures var s := g + "-" + NatToString(now);
      && IsSlugText(s)
      && s[..|g|] == g
      && s[|g|] == '-'
      && DigitsValue(s[|g| + 1..]) == now
  {
    var digits := NatToString(now);
    var s := g + "-" + digits;
    var k := |g|;
    assert s[..k] == g;
    assert s[k + 1..] == digits;
    NatToStringRoundTrip(now);
    forall i | 0 <= i < |s| ensures IsLowerAlnum(s[i]) || s[i] == '-' {
      if i < k {
        assert s[i] == g[i];
      } else if i > k {
        assert s[i] == digits[i - k - 1];
      }
    }
  }

  /** A title without letters or digits yields a slug that is only the hyphen and the clock reading. */
  lemma SymbolTitleSlug(title: string, now: nat)
    requires Alnums(LowerStr(title)) == []
    ensures DesignSlug(title, now) == "-" + NatToString(now)
  {
    SlugKeepsAlnums(title);
    SlugIsWellFormed(title);
  }

  // ---------------------------------------------------------------------------
  // The page
  // ---------------------------------------------------------------------------

  /** How `handleUpload` ended. */
  datatype UploadOutcome =
    | AuthRequired
    | NoFileSelected
    | StorageFailed(path: string, message: string)
    | InsertFailed(draft: DesignDraft, message: string)
    | Created(draft: DesignDraft, designId: string)

  const AuthToast: Toast := Toast("Authentication required", "Please sign in to upload your room.", true)
  const NoFileToast: Toast := Toast("No file selected", "Please select a room photo to upload.", true)
  const SuccessToast: Toast :=
    Toast("Room uploaded successfully!", "Your room has been transformed into a 3D environment.", false)

  /** The failure toast: `error.message || '…'`. */
  function FailureToast(message: string): (t: Toast)
    ensures t.title == "Upload failed" && t.destructive && t.description != []
    ensures message != [] ==> t.description == message
  {
    Toast("Upload failed",
      if message != "" then message
      else "There was an error processing your room photo. Please try again.",
      true)
  }

  /** The page's state as a value. */
  datatype PageState = PageState(
    dragActive: bool,
    files: seq<FileInfo>,
    uploading: bool,
    processing: bool,
    progress: int,
    roomTitle: string,
    roomDescription: string,
    roomType: string,
    uploadComplete: bool,
    generatedDesignId: Option<string>)

  const InitialPage: PageState := PageState(false, [], false, false, 0, "", "", "living_room", false, None)

  class UploadPage {
    var dragActive: bool
    var files: seq<FileInfo>
    var uploading: bool
    var processing: bool
    var progress: int
    var roomTitle: string
    var roomDescription: string
    var roomType: string
    var uploadComplete: bool
    var generatedDesignId: Option<string>

    function State(): PageState
      reads this
    {
      PageState(dragActive, files, uploading, processing, progress, roomTitle, roomDescription, roomType,
        uploadComplete, generatedDesignId)
    }

    constructor ()
      ensures State() == InitialPage
    {
      dragActive, files, uploading, processing, progress := false, [], false, false, 0;
      roomTitle, roomDescription, roomType := "", "", "living_room";
      uploadComplete, generatedDesignId := false, None;
    }

    /**
     * `handleDrag`: entering or moving over the drop zone turns the hover
     * flag on, leaving turns it off, and any other event type keeps it.
     */
    method HandleDrag(eventType: string)
      modifies this
      ensures eventType == "dragenter" || eventType == "dragover" ==> State() == old(State()).(dragActive := true)
      ensures eventType == "dragleave" ==> State() == old(State()).(dragActive := false)
      ensures eventType !in {"dragenter", "dragover", "dragleave"} ==> State() == old(State())
    {
      if eventType == "dragenter" || eventType == "dragover" {
        dragActive := true;
      } else if eventType == "dragleave" {
        dragActive := false;
      }
    }

    /** `handleDrop`: the hover flag goes off and the dropped images replace the selection, unless there are none. */
    method HandleDrop(dropped: seq<FileInfo>)
      modifies this
      ensures State() == old(State()).(dragActive := false, files := Selection(old(files), dropped))
    {
      dragActive := false;
      var droppedFiles := ImageFiles(dropped);
      if |droppedFiles| > 0 {
        files := droppedFiles;
      }
    }

    /** `handleFileChange`; `None` is an input whose `files` list is `null`. */
    method HandleFileChange(selected: Option<seq<FileInfo>>)
      modifies this
      ensures State() == old(State()).(files := Selection(old(files), selected.GetOr([])))
    {
      var selectedFiles := ImageFiles(selected.GetOr([]));
      if |selectedFiles| > 0 {
        files := selectedFiles;
      }
    }

    /** `removeFile`. */
    method RemoveFile(index: int)
      modifies this
      ensures State() == old(State()).(files := DropIndex(old(files), index))
    {
      files := DropIndex(files, index);
    }

    /** The progress animation `for (let i = 0; i <= 100; i += step) setProgress(i)`, without the delays. */
    method AnimateProgress(step: int)
      requires step == 5 || step == 10
      modifies this
      ensures State() == old(State()).(progress := 100)
    {
      var i := 0;
      while i <= 100
        invariant 0 <= i <= 100 + step && i % step == 0
        invariant State() == old(State()).(progress := if i == 0 then old(progress) else i - step)
        decreases 100 + step - i
      {
        progress := i;
        i := i + step;
      }
    }

    /**
     * `handleUpload`. The backend and the AI services are the function
     * parameters: `uploadImage` maps a storage path to the image's public
     * URL, `describeRoom` and `generateRoom3D` map that URL to a
     * description and to a model and thumbnail URL, and `createDesign` maps
     * the draft to the new design's id. `uploadTime` and `slugTime` are the
     * two readings of `Date.now()`.
     */
    method HandleUpload(user: Option<AuthUser>, uploadTime: nat, slugTime: nat,
                        uploadImage: string -> Result<string>,
                        describeRoom: string -> string,
                        generateRoom3D: string -> (string, string),
                        createDesign: DesignDraft -> Result<string>)
      returns (outcome: UploadOutcome, toast: Toast)
      modifies this
      ensures user.None? ==> outcome == AuthRequired && toast == AuthToast && State() == old(State())
      ensures user.Some? && old(files) == [] ==>
        outcome == NoFileSelected && toast == NoFileToast && State() == old(State())
      ensures user.Some? && old(files) != [] ==>
        var path := StoragePath(user.value.id, uploadTime, old(files)[0]);
        var settled := old(State()).(uploading := false, processing := false, progress := 100);
        match uploadImage(path)
        case Err(m) => outcome == StorageFailed(path, m) && toast == FailureToast(m) && State() == settled
        case Ok(url) =>
          var description := if old(roomDescription) != "" then old(roomDescription) else describeRoom(url);
          var draft := NewDraft(user.value.id, old(roomTitle), old(roomType), description,
                                url, generateRoom3D(url).0, generateRoom3D(url).1, slugTime);
          match createDesign(draft)
          case Err(m) => outcome == InsertFailed(draft, m) && toast == FailureToast(m) && State() == settled
          case Ok(id) =>
            && outcome == Created(draft, id) && toast == SuccessToast
            && State() == settled.(uploadComplete := true, generatedDesignId := Some(id))
    {
      if user.None? {
        return AuthRequired, AuthToast;
      }
      if |files| == 0 {
        return NoFileSelected, NoFileToast;
      }
      ghost var before := State();
      uploading := true;
      progress := 0;
      var file := files[0];
      var fileName := StoragePath(user.value.id, uploadTime, file);
      assert fileName == StoragePath(user.value.id, uploadTime, old(files)[0]);
      AnimateProgress(10);
      var uploaded := uploadImage(fileName);
      if uploaded.Err? {
        uploading := false;
        processing := false;
        assert State() == before.(uploading := false, processing := false, progress := 100);
        return StorageFailed(fileName, uploaded.message), FailureToast(uploaded.message);
      }
      var publicUrl := uploaded.value;
      uploading := false;
      processing := true;
      progress := 0;
      outcome, toast := FinishUpload(user.value.id, roomTitle, roomType, roomDescription, publicUrl, slugTime,
                                     describeRoom, generateRoom3D, createDesign);
    }

    /**
     * The second half of `handleUpload`, once the photo is stored at
     * `publicUrl`: the description, the 3D generation and the insert.
     * `roomTitle`, `roomType` and `roomDescription` are the page's fields as
     * the handler reads them.
     */
    method FinishUpload(userId: string, title: string, kind: string, given: string, publicUrl: string, slugTime: nat,
                        describeRoom: string -> string,
                        generateRoom3D: string -> (string, string),
                        createDesign: DesignDraft -> Result<string>)
      returns (outcome: UploadOutcome, toast: Toast)
      modifies this
      ensures
        var description := if given != "" then given else describeRoom(publicUrl);
        var draft := NewDraft(userId, title, kind, description,
                              publicUrl, generateRoom3D(publicUrl).0, generateRoom3D(publicUrl).1, slugTime);
        match createDesign(draft)
        case Err(m) =>
          && outcome == InsertFailed(draft, m) && toast == FailureToast(m)
          && State() == old(State()).(uploading := false, processing := false, progress := 100)
        case Ok(id) =>
          && outcome == Created(draft, id) && toast == SuccessToast
          && State() == old(State()).(processing := false, progress := 100,
                                      uploadComplete := true, generatedDesignId := Some(id))
    {
      ghost var before := State();
      var finalDescription := given;
      if finalDescription == "" {
        finalDescription := describeRoom(publicUrl);
      }
      AnimateProgress(5);
      var (modelUrl, thumbnailUrl) := generateRoom3D(publicUrl);
      var draft := NewDraft(userId, title, kind, finalDescription,
                            publicUrl, modelUrl, thumbnailUrl, slugTime);
      var inserted := createDesign(draft);
      if inserted.Err? {
        uploading := false;
        processing := false;
        assert State() == before.(uploading := false, processing := false, progress := 100);
        return InsertFailed(draft, inserted.message), FailureToast(inserted.message);
      }
      generatedDesignId := Some(inserted.value);
      processing := false;
      uploadComplete := true;
      assert State() == before.(processing := false, progress := 100,
                                uploadComplete := true, generatedDesignId := Some(inserted.value));
      outcome, toast := Created(draft, inserted.value), SuccessToast;
    }
  }

  /** The selection a drop or a file change leaves: the images offered if there are any, else the old selection. */
  function Selection(current: seq<FileInfo>, offered: seq<FileInfo>): (r: seq<FileInfo>)
    ensures forall i :: 0 <= i < |r| ==> r[i] in current || (IsImage(r[i]) && r[i] in offered)
    ensures (exists i :: 0 <= i < |offered| && IsImage(offered[i])) ==> r == ImageFiles(offered)
    ensures (forall i :: 0 <= i < |offered| ==> !IsImage(offered[i])) ==> r == current
  {
    var images := ImageFiles(offered);
    if |images| > 0 then
      assert images[0] in offered && IsImage(images[0]);
      images
    else
      current
  }
}
