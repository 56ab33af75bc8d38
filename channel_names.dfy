/** `parse_author_name_from_channel_name` (src/main.rs): turning a channel slug
    such as `jane-doe` into a display name. */
module ChannelNames {
  import opened Strings

  datatype ChannelParseMode = FullName | FirstFullLastInitial

  /** The first character ASCII-upper-cased and the rest ASCII-lower-cased;
      `chars().next().unwrap()` panics on an empty part. */
  function Capitalize(part: string): (r: Result<string>)
    ensures r.Err? <==> |part| == 0
    ensures r.Ok? ==> |r.value| == |part| && r.value[0] == AsciiUpper(part[0])
    ensures r.Ok? ==> forall i :: 1 <= i < |part| ==> r.value[i] == AsciiLower(part[i])
  {
    if |part| == 0 then Err(EmptyNamePart)
    else Ok([AsciiUpper(part[0])] + AsciiLowerStr(part[1..]))
  }

  /** Capitalizes every part, stopping at the first empty one. */
  function CapitalizeAll(parts: seq<string>): (r: Result<seq<string>>)
    ensures r.Err? <==> exists i :: 0 <= i < |parts| && |parts[i]| == 0
    ensures r.Err? ==> r.panic == EmptyNamePart
    ensures r.Ok? ==> |r.value| == |parts|
    ensures r.Ok? ==> forall i :: 0 <= i < |parts| ==> Capitalize(parts[i]) == Ok(r.value[i])
    decreases |parts|
  {
    if |parts| == 0 then Ok([])
    else
      match Capitalize(parts[0])
      case Err(p) => Err(p)
      case Ok(head) =>
        match CapitalizeAll(parts[1..])
        case Err(p) =>
          assert exists i :: 0 <= i < |parts| && |parts[i]| == 0 by {
            var i :| 0 <= i < |parts[1..]| && |parts[1..][i]| == 0;
            assert parts[i + 1] == parts[1..][i];
          }
          Err(p)
        case Ok(tail) =>
          assert forall i :: 0 < i < |parts| ==> parts[i] == parts[1..][i - 1];
          Ok([head] + tail)
  }

  /** Words joined with single spaces: `Vec<String>::join(" ")`. */
  function JoinWords(words: seq<string>): string {
    if |words| == 0 then "" else JoinWith(words, ' ')
  }

  /** `parse_author_name_from_channel_name` */
  function ParseAuthorName(channelName: string, mode: ChannelParseMode): (r: Result<string>)
    ensures r.Err? ==> r.panic == EmptyNamePart
  {
    var parts := Split(channelName, '-');
    match mode
    case FullName =>
      (match CapitalizeAll(parts)
       case Err(p) => Err(p)
       case Ok(words) => Ok(JoinWords(words)))
    case FirstFullLastInitial =>
      if |parts| >= 2 then
        if |parts[0]| == 0 || |parts[1]| == 0 then Err(EmptyNamePart)
        else Ok([AsciiUpper(parts[0][0])] + AsciiLowerStr(parts[0][1..]) + " " + [AsciiUpper(parts[1][0])] + ".")
      else Ok(channelName)
  }

  /** A name with no `-` is returned as it is in first-name/last-initial mode
      and only capitalized in full-name mode (an empty name panics there). */
  lemma UndashedNameKept(name: string)
    requires '-' !in name
    ensures ParseAuthorName(name, FirstFullLastInitial) == Ok(name)
    ensures ParseAuthorName(name, FullName) == Capitalize(name)
  {
    SplitNoSeparator(name, '-');
  }

  /** With at least two `-`-separated parts, first-name/last-initial mode
      renders `First L.` from the first two parts alone, whatever follows the
      second `-`; an empty first or second part panics. */
  lemma FirstTwoPartsDecide(first: string, last: string, rest: string)
    requires '-' !in first && '-' !in last
    requires |rest| == 0 || rest[0] == '-'
    ensures ParseAuthorName(first + "-" + last + rest, FirstFullLastInitial) ==
      if |first| == 0 || |last| == 0 then Err(EmptyNamePart)
      else Ok([AsciiUpper(first[0])] + AsciiLowerStr(first[1..]) + " " + [AsciiUpper(last[0])] + ".")
  {
    var name := first + "-" + last + rest;
    assert name == first + ['-'] + (last + rest);
    SplitAtFirst(first, '-', last + rest);
    LastPartOf(last, rest);
  }

  /** The first piece of `last + rest`, where `rest` is empty or starts a new
      piece, is `last`. */
  lemma LastPartOf(last: string, rest: string)
    requires '-' !in last
    requires |rest| == 0 || rest[0] == '-'
    ensures Split(last + rest, '-')[0] == last
  {
    if |rest| == 0 {
      assert last + rest == last;
      SplitNoSeparator(last, '-');
    } else {
      assert rest == ['-'] + rest[1..];
      assert last + rest == last + ['-'] + rest[1..];
      SplitAtFirst(last, '-', rest[1..]);
      assert Split(last + rest, '-') == [last] + Split(rest[1..], '-');
    }
  }

  /** In full-name mode each part is capitalized and the parts are joined
      with spaces: `two-words` becomes `Two Words`. */
  lemma FullNameCapitalizesEachPart(first: string, last: string)
    requires '-' !in first && '-' !in last
    requires |first| > 0 && |last| > 0
    ensures ParseAuthorName(first + "-" + last, FullName) ==
      Ok(Capitalize(first).value + " " + Capitalize(last).value)
  {
    SplitAtFirst(first, '-', last);
    SplitNoSeparator(last, '-');
    assert first + "-" + last == first + ['-'] + last;
    var parts := Split(first + "-" + last, '-');
    assert parts == [first, last];
    var words := CapitalizeAll(parts).value;
    assert words == [Capitalize(first).value, Capitalize(last).value];
    assert words[1..] == [Capitalize(last).value];
    assert JoinWith(words[1..], ' ') == words[1];
    assert JoinWords(words) == words[0] + [' '] + words[1];
  }

  /** Worked channel names:
      `jane-doe`, `JANE-DOE` and `jane-doe-extra` all become `Jane D.`, and
      `janedoe` passes through. */
  lemma NameExamples()
    ensures ParseAuthorName("jane-doe", FirstFullLastInitial) == Ok("Jane D.")
    ensures ParseAuthorName("JANE-DOE", FirstFullLastInitial) == Ok("Jane D.")
    ensures ParseAuthorName("janedoe", FirstFullLastInitial) == Ok("janedoe")
    ensures ParseAuthorName("jane-doe-extra", FirstFullLastInitial) == Ok("Jane D.")
  {
    JaneDoe("jane", "doe", "");
    JaneDoe("JANE", "DOE", "");
    JaneDoe("jane", "doe", "-extra");
    assert "jane" + "-" + "doe" + "" == "jane-doe";
    assert "JANE" + "-" + "DOE" + "" == "JANE-DOE";
    assert "jane" + "-" + "doe" + "-extra" == "jane-doe-extra";
    UndashedNameKept("janedoe");
  }

  lemma JaneDoe(first: string, last: string, rest: string)
    requires first == "jane" || first == "JANE"
    requires last == "doe" || last == "DOE"
    requires |rest| == 0 || rest[0] == '-'
    ensures ParseAuthorName(first + "-" + last + rest, FirstFullLastInitial) == Ok("Jane D.")
  {
    FirstTwoPartsDecide(first, last, rest);
    var lower := AsciiLowerStr(first[1..]);
    assert lower == "ane" by {
      assert |lower| == 3;
      assert lower[0] == 'a' && lower[1] == 'n' && lower[2] == 'e';
    }
    assert AsciiUpper(first[0]) == 'J' && AsciiUpper(last[0]) == 'D';
    assert [AsciiUpper(first[0])] + lower + " " + [AsciiUpper(last[0])] + "." == "Jane D.";
  }
}
