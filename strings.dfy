/** Shared value types and the string operations the gallery builder relies on:
    Rust's `Option`, panics as an error value, `String` ordering (`Ord` on
    `str`, i.e. lexicographic by character), `str::split` and the ASCII case
    conversions of `char` and `str`. */
module Strings {

  datatype Option<+T> = None | Some(value: T)

  /** Why the program panicked (`unwrap` on `None`/`Err`, `panic!`, an index
      out of bounds). A panic in a spawned event handler ends that handler
      only; anywhere else it ends the program. */
  datatype Panic =
    | WrongState                 // `panic!("Wrong state!")` in `handle_event`
    | GuildIndexOutOfRange       // `basic_guild_infos[chosen_guild_index]`
    | CategoryIndexOutOfRange    // `valid_guild_categories.nth(i).unwrap()`
    | CategoryWithoutName        // `chosen_category.name.as_ref().unwrap()`
    | HistoryFetchFailed         // `http.channel_messages(..).await.unwrap()`
    | UnparseableUrl             // `Url::from_str(..).unwrap()`
    | EmptyNamePart              // `chars().next().unwrap()` on an empty part
    | ImageFetchFailed           // request, body or decode `unwrap()`
    | NoParentDirectory          // `save_path.parent().unwrap()`
    | CreateDirFailed            // `fs::create_dir_all(..).unwrap()`

  datatype Result<+T> = Ok(value: T) | Err(panic: Panic)

  /** `str::starts_with` */
  predicate StartsWith(s: string, prefix: string) {
    |prefix| <= |s| && s[..|prefix|] == prefix
  }

  /** `a <= b` for Rust strings: byte-wise comparison of UTF-8, which is the
      same as comparing code points one by one, a proper prefix first. */
  predicate LessEq(a: string, b: string)
    decreases |a|
  {
    |a| == 0 || (|b| > 0 && (a[0] < b[0] || (a[0] == b[0] && LessEq(a[1..], b[1..]))))
  }

  predicate Less(a: string, b: string) {
    LessEq(a, b) && a != b
  }

  lemma LessEqRefl(a: string)
    ensures LessEq(a, a)
  {
    if |a| > 0 { LessEqRefl(a[1..]); }
  }

  lemma LessEqAntisym(a: string, b: string)
    requires LessEq(a, b) && LessEq(b, a)
    ensures a == b
    decreases |a|
  {
    if |a| > 0 {
      LessEqAntisym(a[1..], b[1..]);
      assert a == [a[0]] + a[1..] && b == [b[0]] + b[1..];
    }
  }

  lemma LessEqTrans(a: string, b: string, c: string)
    requires LessEq(a, b) && LessEq(b, c)
    ensures LessEq(a, c)
    decreases |a|
  {
    if |a| > 0 && a[0] == b[0] && b[0] == c[0] {
      LessEqTrans(a[1..], b[1..], c[1..]);
    }
  }

  lemma LessEqTotal(a: string, b: string)
    ensures LessEq(a, b) || LessEq(b, a)
    decreases |a|
  {
    if |a| > 0 && |b| > 0 && a[0] == b[0] {
      LessEqTotal(a[1..], b[1..]);
    }
  }

  /** The pieces of `s.split(sep)`: never empty, the separator occurs in no
      piece, and putting the separator back between the pieces gives `s`. */
  function Split(s: string, sep: char): (parts: seq<string>)
    ensures |parts| >= 1
    ensures forall i :: 0 <= i < |parts| ==> sep !in parts[i]
    ensures JoinWith(parts, sep) == s
    decreases |s|
  {
    if |s| == 0 then [""]
    else
      var rest := Split(s[1..], sep);
      if s[0] == sep then [""] + rest
      else [[s[0]] + rest[0]] + rest[1..]
  }

  /** The inverse of `Split`: `parts.join(sep)`. */
  function JoinWith(parts: seq<string>, sep: char): string
    requires |parts| >= 1
  {
    if |parts| == 1 then parts[0] else parts[0] + [sep] + JoinWith(parts[1..], sep)
  }

  /** Splitting at a separator-free head: the head is the first piece and the
      rest is split on its own. */
  lemma {:induction false} SplitAtFirst(a: string, sep: char, b: string)
    requires sep !in a
    ensures Split(a + [sep] + b, sep) == [a] + Split(b, sep)
    decreases |a|
  {
    if |a| == 0 {
      assert a + [sep] + b == [sep] + b;
      assert ([sep] + b)[1..] == b;
    } else {
      SplitAtFirst(a[1..], sep, b);
      assert (a + [sep] + b)[1..] == a[1..] + [sep] + b;
      assert [a[0]] + a[1..] == a;
    }
  }

  /** Joining separator-free pieces and splitting again gives the pieces
      back, so `Split` and `JoinWith` are inverse to each other. */
  lemma {:induction false} SplitJoinWith(parts: seq<string>, sep: char)
    requires |parts| >= 1
    requires forall i :: 0 <= i < |parts| ==> sep !in parts[i]
    ensures Split(JoinWith(parts, sep), sep) == parts
    decreases |parts|
  {
    if |parts| == 1 {
      SplitNoSeparator(parts[0], sep);
    } else {
      assert sep !in parts[0];
      SplitJoinWith(parts[1..], sep);
      SplitAtFirst(parts[0], sep, JoinWith(parts[1..], sep));
      assert parts == [parts[0]] + parts[1..];
    }
  }

  /** A string without the separator is a single piece. */
  lemma {:induction false} SplitNoSeparator(s: string, sep: char)
    requires sep !in s
    ensures Split(s, sep) == [s]
    decreases |s|
  {
    if |s| > 0 {
      SplitNoSeparator(s[1..], sep);
      assert [s[0]] + s[1..] == s;
    }
  }

  /** `char::to_ascii_uppercase` */
  function AsciiUpper(c: char): (r: char)
    ensures 'a' <= c <= 'z' ==> 'A' <= r <= 'Z' && r as int == c as int - 32
    ensures !('a' <= c <= 'z') ==> r == c
  {
    if 'a' <= c <= 'z' then (c as int - 32) as char else c
  }

  /** `char::to_ascii_lowercase` */
  function AsciiLower(c: char): (r: char)
    ensures 'A' <= c <= 'Z' ==> 'a' <= r <= 'z' && r as int == c as int + 32
    ensures !('A' <= c <= 'Z') ==> r == c
  {
    if 'A' <= c <= 'Z' then (c as int + 32) as char else c
  }

  /** `str::to_ascii_lowercase` */
  function AsciiLowerStr(s: string): (r: string)
    ensures |r| == |s|
    ensures forall i :: 0 <= i < |s| ==> r[i] == AsciiLower(s[i])
  {
    seq(|s|, i requires 0 <= i < |s| => AsciiLower(s[i]))
  }
}
