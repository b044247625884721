/** The client-side pre-processing of a profile image before upload: a size
    gate on the original file, then a compression to WebP by an outside
    library, and a new file name ending in `.webp`. */
module ImageUtils {
  import opened Js

  /** The largest accepted original, in MB, and the same in bytes. */
  const MaxOriginalSizeMB: nat := 5
  const MaxOriginalSizeBytes: nat := MaxOriginalSizeMB * 1024 * 1024

  const WebpType := "image/webp"

  /** `xs.slice(0, -1)`: every element but the last; nothing for an empty
      list. */
  function DropLast<T>(xs: seq<T>): (r: seq<T>)
    ensures xs == [] ==> r == []
    ensures xs != [] ==> xs == r + [xs[|xs| - 1]]
  {
    if xs == [] then [] else xs[..|xs| - 1]
  }

  /** The name of the WebP file: the parts of the name between dots, all but
      the last, joined again with dots, followed by `.webp`. */
  function NewFileName(name: string): (r: string)
    ensures |r| >= 5 && r[|r| - 5..] == ".webp"
  {
    Join(DropLast(Split(name, '.')), ".") + ".webp"
  }

  /** What the name keeps: everything before its last dot, or nothing when
      it has no dot. */
  function Stem(name: string): (r: string)
    ensures '.' !in name ==> r == ""
    ensures '.' in name ==> r + ['.'] <= name && '.' !in name[|r| + 1..]
  {
    var i := LastIndexOf(name, '.');
    if i < 0 then "" else name[..i]
  }

  /** The new name is the old one with the text from its last dot on
      replaced by `.webp`; a name without a dot becomes `.webp`. */
  lemma NewFileNameIsStem(name: string)
    ensures NewFileName(name) == Stem(name) + ".webp"
  {
    var i := LastIndexOf(name, '.');
    if i < 0 {
      SplitWithoutSeparator(name, '.');
    } else {
      var before, after := name[..i], name[i + 1..];
      assert name == before + ['.'] + after;
      SplitAppend(before, after, '.');
      SplitWithoutSeparator(after, '.');
      assert DropLast(Split(name, '.')) == Split(before, '.');
      JoinSplit(before, '.');
    }
  }

  lemma LastDotOf(name: string, i: nat)
    requires i < |name| && name[i] == '.' && '.' !in name[i + 1..]
    ensures LastIndexOf(name, '.') == i
  {
  }

  /** Only the text after the last dot is dropped: dots before it stay
      (`a.b.png` becomes `a.b.webp`). */
  lemma RenameKeepsInnerDots(stem: string, ext: string)
    requires '.' !in ext
    ensures NewFileName(stem + "." + ext) == stem + ".webp"
  {
    var name := stem + "." + ext;
    assert name[|stem|] == '.' && name[|stem| + 1..] == ext;
    LastDotOf(name, |stem|);
    NewFileNameIsStem(name);
    assert Stem(name) == stem;
  }

  /** A name without a dot is dropped whole: `photo` becomes `.webp`. */
  lemma RenameWithoutDot(name: string)
    requires '.' !in name
    ensures NewFileName(name) == ".webp"
  {
    NewFileNameIsStem(name);
  }

  /** A trailing dot is the last one: `photo.` becomes `photo.webp`. */
  lemma RenameTrailingDot(stem: string)
    ensures NewFileName(stem + ".") == stem + ".webp"
  {
    RenameKeepsInnerDots(stem, "");
    assert stem + "." + "" == stem + ".";
  }

  /** The result of `processImage`, and whether it called the compression
      library. */
  datatype Processed = Processed(file: Option<File>, compressCalled: bool)

  /** `processImage`. An original larger than 5 MB is refused (null) before
      any compression; otherwise the library is called, and its result
      (`compressed`, None when it throws) becomes a WebP file under the new
      name, or null. */
  function ProcessImage(file: File, compressed: Option<File>): (r: Processed)
    ensures r.compressCalled <==> file.size <= MaxOriginalSizeBytes
    ensures r.file.Some? <==> r.compressCalled && compressed.Some?
    ensures r.file.Some? ==>
      r.file.value == File(Stem(file.name) + ".webp", compressed.value.size, WebpType)
  {
    NewFileNameIsStem(file.name);
    if file.size > MaxOriginalSizeBytes then Processed(None, false)
    else if compressed.None? then Processed(None, true)
    else Processed(Some(File(NewFileName(file.name), compressed.value.size, WebpType)), true)
  }

  /** The gate is strict: exactly 5 MiB passes, one byte more does not. */
  lemma SizeGateBoundary(file: File, compressed: Option<File>)
    ensures file.size == 5 * 1024 * 1024 ==> ProcessImage(file, compressed).compressCalled
    ensures file.size == 5 * 1024 * 1024 + 1 ==> ProcessImage(file, compressed).file == None
  {
  }

  /** A refused original gives null whatever the compression would have
      given. */
  lemma RefusalIgnoresCompression(file: File, a: Option<File>, b: Option<File>)
    requires file.size > MaxOriginalSizeBytes
    ensures ProcessImage(file, a) == ProcessImage(file, b) == Processed(None, false)
  {
  }
}
