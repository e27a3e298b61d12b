/**
 * `InferFormat` of pkg/epic/fetcher.go with the two library functions it uses:
 * `strings.ToLower` (on ASCII letters) and `filepath.Ext` (with the Windows path
 * separators, the platform the tool's toast notifications target).
 */
module EpicFormat {

  const TextFormat: string := "text"
  const JsonFormat: string := "json"
  const HtmlFormat: string := "html"

  function LowerChar(c: char): char
  {
    if 'A' <= c <= 'Z' then (c as int + 32) as char else c
  }

  /** `strings.ToLower`, on ASCII letters. */
  function Lower(s: string): (r: string)
    ensures |r| == |s|
    ensures forall i | 0 <= i < |s| :: r[i] == LowerChar(s[i])
  {
    seq(|s|, i requires 0 <= i < |s| => LowerChar(s[i]))
  }

  /** `os.IsPathSeparator` on Windows. */
  predicate IsPathSeparator(c: char)
  {
    c == '/' || c == '\\'
  }

  /** `filepath.Ext`: scanning back from the end, the suffix from the first dot met before any
      separator, or "" when a separator or the start comes first. */
  function Ext(path: string): (e: string)
    ensures |e| <= |path|
  {
    if path == [] || IsPathSeparator(path[|path| - 1]) then ""
    else if path[|path| - 1] == '.' then "."
    else
      var e := Ext(path[..|path| - 1]);
      if e == "" then "" else e + [path[|path| - 1]]
  }

  /** `Ext` is the suffix that starts at the path's last dot and holds no dot or separator
      after it; it is empty exactly when every dot is followed by a separator. */
  lemma {:induction false} ExtIsLastDotSuffix(path: string)
    ensures var e := Ext(path);
      && e == path[|path| - |e|..]
      && (e != "" ==> e[0] == '.')
      && (forall i | 0 < i < |e| :: e[i] != '.' && !IsPathSeparator(e[i]))
      && (e == "" ==> forall i | 0 <= i < |path| && path[i] == '.' ::
                        exists j | i < j < |path| :: IsPathSeparator(path[j]))
  {
    if path != [] && !IsPathSeparator(path[|path| - 1]) && path[|path| - 1] != '.' {
      var n := |path| - 1;
      var prefix := path[..n];
      ExtIsLastDotSuffix(prefix);
      var e := Ext(prefix);
      if e == "" {
        forall i | 0 <= i < |path| && path[i] == '.'
          ensures exists j | i < j < |path| :: IsPathSeparator(path[j])
        {
          assert prefix[i] == '.';
          var j :| i < j < |prefix| && IsPathSeparator(prefix[j]);
          assert IsPathSeparator(path[j]);
        }
      } else {
        assert Ext(path) == e + [path[n]];
        assert prefix[|prefix| - |e|..] + [path[n]] == path[|path| - |e| - 1..];
      }
    } else if path != [] && path[|path| - 1] != '.' {
      var n := |path| - 1;
      forall i | 0 <= i < |path| && path[i] == '.'
        ensures exists j | i < j < |path| :: IsPathSeparator(path[j])
      {
        assert IsPathSeparator(path[n]);
      }
    }
  }

  /** `InferFormat`: a non-empty explicit format wins, lowered; otherwise the output path's
      extension, matched without regard to case; otherwise text. */
  function InferFormat(output: string, explicitFormat: string): (f: string)
    ensures explicitFormat != "" ==> f == Lower(explicitFormat)
    ensures explicitFormat == "" ==> f == TextFormat || f == JsonFormat || f == HtmlFormat
    ensures explicitFormat == "" ==> (f == JsonFormat <==> Lower(Ext(output)) == ".json")
    ensures explicitFormat == "" ==> (f == HtmlFormat <==> Lower(Ext(output)) in {".html", ".htm"})
  {
    if explicitFormat != "" then Lower(explicitFormat)
    else if output != "" then
      match Lower(Ext(output))
      case ".json" => JsonFormat
      case ".html" => HtmlFormat
      case ".htm" => HtmlFormat
      case ".txt" => TextFormat
      case _ => TextFormat
    else TextFormat
  }

  /** An extension written after any path ends that path's `Ext`. */
  lemma {:induction false} ExtOfSuffix(path: string, ext: string)
    requires |ext| > 0 && ext[0] == '.'
    requires forall i | 0 < i < |ext| :: ext[i] != '.' && !IsPathSeparator(ext[i])
    ensures Ext(path + ext) == ext
  {
    if |ext| > 1 {
      var shorter := ext[..|ext| - 1];
      ExtOfSuffix(path, shorter);
      assert (path + ext)[..|path + ext| - 1] == path + shorter;
      assert shorter + [ext[|ext| - 1]] == ext;
    }
  }

  /** Lowering a path does not move its extension: the case-insensitive match sees the same
      suffix whether the path or its extension is lowered. */
  lemma {:induction false} ExtOfLower(path: string)
    ensures Ext(Lower(path)) == Lower(Ext(path))
  {
    if path != [] {
      var n := |path| - 1;
      assert Lower(path)[..n] == Lower(path[..n]);
      ExtOfLower(path[..n]);
      if !IsPathSeparator(path[n]) && path[n] != '.' && Ext(path[..n]) != "" {
        assert Lower(Ext(path[..n]) + [path[n]]) == Lower(Ext(path[..n])) + [LowerChar(path[n])];
      }
    }
  }

  lemma LowerIdempotent(s: string)
    ensures Lower(Lower(s)) == Lower(s)
  {
  }

  /** Inference ignores the case of the output path. */
  lemma InferFormatIgnoresCase(output: string)
    ensures InferFormat(Lower(output), "") == InferFormat(output, "")
  {
    ExtOfLower(output);
    LowerIdempotent(Ext(output));
  }

  /** Any path ending in one of the recognised extensions, in any case, selects its format. */
  lemma InferFormatFromExtension(path: string)
    ensures InferFormat(path + ".json", "") == JsonFormat
    ensures InferFormat(path + ".JSON", "") == JsonFormat
    ensures InferFormat(path + ".html", "") == HtmlFormat
    ensures InferFormat(path + ".HTM", "") == HtmlFormat
    ensures InferFormat(path + ".txt", "") == TextFormat
  {
    ExtOfSuffix(path, ".json");
    ExtOfSuffix(path, ".JSON");
    ExtOfSuffix(path, ".html");
    assert Lower(".html") == ".html";
    ExtOfSuffix(path, ".HTM");
    assert Lower(".HTM") == ".htm";
    ExtOfSuffix(path, ".txt");
  }

  /** An empty output path, or one without a recognised extension, gives text. */
  lemma InferFormatFallsBackToText(path: string)
    requires Lower(Ext(path)) !in {".json", ".html", ".htm"}
    ensures InferFormat(path, "") == TextFormat
    ensures InferFormat("", "") == TextFormat
  {
  }
}
