/**
 * The recipe image field's conversion of its input (Base64ImageField in
 * backend/api/serializers.py): a string that starts with `data:image` is
 * taken as a `data:` URL of RFC 2397 (section 3, `data:[<mediatype>];base64,<data>`),
 * cut at `;base64,`, and its payload decoded into a file named `temp.<ext>`,
 * where `<ext>` is what follows the last '/' of the part before the cut.
 * Any other input is handed on unchanged to the image field.
 */
module DataUri {
  import opened Outcomes
  import opened Text
  import Base64

  /** What arrives in the `image` field: JSON text, or an uploaded file. */
  datatype ImageInput = TextValue(s: string) | Upload(content: seq<Base64.Byte>)

  /** What the conversion hands to the image field. */
  datatype ImageValue = File(name: string, content: seq<Base64.Byte>) | Unchanged(input: ImageInput)

  datatype ImageError =
    | NotOneSeparator(parts: nat)              // unpacking `split(';base64,')` into two names fails
    | UndecodablePayload(cause: Base64.DecodeError)

  const Marker: string := "data:image"
  const Separator: string := ";base64,"

  function Last(parts: seq<string>): string
    requires |parts| >= 1
  {
    parts[|parts| - 1]
  }

  function ToInternalValue(data: ImageInput): (r: Result<ImageValue, ImageError>)
    ensures r.Ok? && r.value.Unchanged? ==> r.value.input == data
    ensures (r.Ok? && r.value.Unchanged?) <==> (data.Upload? || !StartsWith(data.s, Marker))
  {
    match data
    case Upload(_) => Ok(Unchanged(data))
    case TextValue(s) =>
      if !StartsWith(s, Marker) then Ok(Unchanged(data))
      else
        var parts := Split(s, Separator);
        if |parts| != 2 then Err(NotOneSeparator(|parts|))
        else
          var ext := Last(Split(parts[0], "/"));
          match Base64.Decode(parts[1])
          case Err(e) => Err(UndecodablePayload(e))
          case Ok(bytes) => Ok(File("temp." + ext, bytes))
  }

  /**
   * A decoded file comes from a string that is a header, the separator and a
   * payload, where neither header nor payload holds the separator, the file's
   * content is the decoded payload and its name ends in the header's last
   * '/'-separated piece.
   */
  lemma DecodedFileShape(s: string)
    requires ToInternalValue(TextValue(s)).Ok? && ToInternalValue(TextValue(s)).value.File?
    ensures var f := ToInternalValue(TextValue(s)).value;
      exists header, payload ::
        && s == header + Separator + payload
        && StartsWith(s, Marker)
        && !Contains(header, Separator) && !Contains(payload, Separator)
        && Base64.Decode(payload) == Ok(f.content)
        && f.name == "temp." + Last(Split(header, "/"))
        && !Contains(Last(Split(header, "/")), "/")
  {
    var parts := Split(s, Separator);
    SplitJoin(s, Separator);
    SplitPartsFree(s, Separator);
    assert |parts| == 2;
    assert parts[1..] == [parts[1]];
    assert s == parts[0] + Separator + parts[1];
    var pieces := Split(parts[0], "/");
    SplitPartsFree(parts[0], "/");
    assert !Contains(pieces[|pieces| - 1], "/");
    assert !Contains(parts[0], Separator) && !Contains(parts[1], Separator);
  }

  /** A header without ';' and a payload in the base64 alphabet split into exactly those two. */
  lemma SplitEncodedUrl(header: string, payload: string)
    requires ';' !in header
    requires forall i :: 0 <= i < |payload| ==> Base64.IsEncodingChar(payload[i])
    ensures Split(header + Separator + payload, Separator) == [header, payload]
  {
    assert ';' !in payload by {
      forall i | 0 <= i < |payload| ensures payload[i] != ';' {
        assert Base64.IsEncodingChar(payload[i]);
      }
    }
    SplitAfterPrefix(header, Separator, payload);
    SplitWithoutSeparator(payload, Separator);
  }

  lemma SplitMediaType(ext: string)
    requires '/' !in ext
    ensures Split("data:image/" + ext, "/") == ["data:image", ext]
  {
    assert "data:image/" + ext == "data:image" + "/" + ext;
    SplitAfterPrefix("data:image", "/", ext);
    SplitWithoutSeparator(ext, "/");
  }

  /**
   * The round trip of the field: a `data:image/<ext>;base64,` URL over the
   * standard encoding of some bytes gives the file `temp.<ext>` holding
   * exactly those bytes, for every extension without '/' or ';'.
   */
  lemma EncodedImageRoundTrip(ext: string, bytes: seq<Base64.Byte>)
    requires '/' !in ext && ';' !in ext
    ensures ToInternalValue(TextValue("data:image/" + ext + Separator + Base64.Encode(bytes)))
         == Ok(File("temp." + ext, bytes))
  {
    var header := "data:image/" + ext;
    var payload := Base64.Encode(bytes);
    var s := header + Separator + payload;
    assert s[..|Marker|] == Marker;
    SplitEncodedUrl(header, payload);
    SplitMediaType(ext);
    Base64.DecodeEncode(bytes);
  }
}
