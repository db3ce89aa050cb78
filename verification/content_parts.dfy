/** Message content as the chat APIs send it: raw JSON that is a string, or an array of typed parts. */
module ContentParts {
  import opened ByteText

  datatype ContentPart = ContentPart(kind: string, text: string)

  function TextParts(parts: seq<ContentPart>): seq<string> {
    if parts == [] then []
    else if parts[0].kind == "text" && parts[0].text != "" then [parts[0].text] + TextParts(parts[1..])
    else TextParts(parts[1..])
  }

  /** `extractContent`, over the two ways the JSON library may read the content. */
  function ContentText(raw: Bytes, str: Bytes -> Option<string>, parts: Bytes -> Option<seq<ContentPart>>): string {
    if raw == [] then ""
    else if str(raw).Some? then str(raw).value
    else if parts(raw).Some? then Joined(TextParts(parts(raw).value), '\n')
    else ""
  }

  // ----- What content says, without the code. -----

  predicate IsText(p: ContentPart) {
    p.kind == "text" && p.text != ""
  }

  /** The texts of an array, each after the first on a new line. */
  function ArrayText(ps: seq<ContentPart>): string {
    if ps == [] then ""
    else
      var n := |ps| - 1;
      var before := ArrayText(ps[..n]);
      if !IsText(ps[n]) then before
      else if forall k :: 0 <= k < n ==> !IsText(ps[k]) then ps[n].text
      else before + "\n" + ps[n].text
  }

  /** Content says a text: nothing when it is absent, its value when it is a string, its texts when it is an array, and
      nothing otherwise. */
  predicate Says(raw: Bytes, str: Bytes -> Option<string>, parts: Bytes -> Option<seq<ContentPart>>, text: string) {
    if raw != [] && str(raw).Some? then str(raw) == Some(text)
    else if raw != [] && parts(raw).Some? then text == ArrayText(parts(raw).value)
    else text == ""
  }

  lemma {:induction false} TextPartsAppend(a: seq<ContentPart>, b: seq<ContentPart>)
    ensures TextParts(a + b) == TextParts(a) + TextParts(b)
    decreases |a|
  {
    if a == [] {
      assert a + b == b;
    } else {
      TextPartsAppend(a[1..], b);
      assert (a + b)[1..] == a[1..] + b;
    }
  }

  lemma {:induction false} JoinSnoc(texts: seq<string>, last: string)
    ensures Joined(texts + [last], '\n') == if texts == [] then last else Joined(texts, '\n') + "\n" + last
    decreases |texts|
  {
    var all := texts + [last];
    if texts == [] {
      assert all == [last];
    } else {
      var first, more := texts[0], texts[1..];
      assert all[1..] == more + [last] && all[0] == first;
      JoinSnoc(more, last);
      if more != [] {
        var j := Joined(more, '\n');
        assert first + (['\n'] + (j + "\n" + last)) == (first + (['\n'] + j)) + "\n" + last;
      }
    }
  }

  lemma {:induction false} NoTextParts(ps: seq<ContentPart>)
    ensures TextParts(ps) == [] <==> forall k :: 0 <= k < |ps| ==> !IsText(ps[k])
    decreases |ps|
  {
    if ps != [] {
      NoTextParts(ps[1..]);
      assert forall k :: 1 <= k < |ps| ==> ps[k] == ps[1..][k - 1];
      if forall k :: 0 <= k < |ps| ==> !IsText(ps[k]) {
        assert !IsText(ps[0]) && forall k :: 0 <= k < |ps[1..]| ==> ps[1..][k] == ps[k + 1];
      }
    }
  }

  lemma {:induction false} JoinIsArrayText(ps: seq<ContentPart>)
    ensures Joined(TextParts(ps), '\n') == ArrayText(ps)
    decreases |ps|
  {
    if ps != [] {
      var n := |ps| - 1;
      var init, last := ps[..n], [ps[n]];
      JoinIsArrayText(init);
      assert ps == init + last && |last[1..]| == 0;
      TextPartsAppend(init, last);
      assert TextParts(last) == if IsText(ps[n]) then [ps[n].text] else [];
      NoTextParts(init);
      assert forall k :: 0 <= k < n ==> init[k] == ps[k];
      if IsText(ps[n]) {
        JoinSnoc(TextParts(init), ps[n].text);
      } else {
        assert TextParts(init) + [] == TextParts(init);
      }
    }
  }

  /** `extractContent` returns exactly what the content says. */
  lemma ContentSays(raw: Bytes, str: Bytes -> Option<string>, parts: Bytes -> Option<seq<ContentPart>>, text: string)
    ensures Says(raw, str, parts, text) <==> text == ContentText(raw, str, parts)
  {
    if raw != [] && parts(raw).Some? { JoinIsArrayText(parts(raw).value); }
  }
}
