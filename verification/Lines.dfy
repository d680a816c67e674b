/** Batches as text: a spooled segment is its lines run together, and
    `split_inclusive('\n')` is what takes it apart again. */
module Lines {
  const NL: char := '\n'

  /** One encoded record: a newline at the end and nowhere else. */
  predicate IsLine(s: string) {
    s != [] && s[|s| - 1] == NL && NL !in s[..|s| - 1]
  }

  predicate AllLines(lines: seq<string>) {
    forall k :: 0 <= k < |lines| ==> IsLine(lines[k])
  }

  /** `lines.concat()`. */
  function Concat(lines: seq<string>): string {
    if lines == [] then [] else lines[0] + Concat(lines[1..])
  }

  lemma ConcatCons(line: string, rest: seq<string>)
    ensures Concat([line] + rest) == line + Concat(rest)
  {
    assert ([line] + rest)[1..] == rest;
  }

  /** The position just past the first newline, or the end. */
  function FirstEnd(s: string): (n: nat)
    ensures n <= |s| && (s != [] ==> n > 0)
    ensures NL !in s[..n] ==> n == |s|
    ensures NL in s ==> n > 0 && s[n - 1] == NL && NL !in s[..n - 1]
  {
    if s == [] then 0
    else if s[0] == NL then 1
    else
      var n := 1 + FirstEnd(s[1..]);
      assert s == [s[0]] + s[1..] && s[..n] == [s[0]] + s[1..][..n - 1];
      assert n > 1 ==> s[..n - 1] == [s[0]] + s[1..][..n - 2];
      n
  }

  /** `body.split_inclusive('\n')`: pieces keep their newline, a last piece may lack one. */
  function Split(body: string): seq<string>
    decreases |body|
  {
    if body == [] then [] else [body[..FirstEnd(body)]] + Split(body[FirstEnd(body)..])
  }

  lemma {:induction false} FirstEndOfLine(line: string, rest: string)
    requires IsLine(line)
    ensures FirstEnd(line + rest) == |line|
  {
    if |line| > 1 {
      assert line[0] == line[..|line| - 1][0];
      assert line[1..][..|line| - 2] == line[..|line| - 1][1..];
      assert (line + rest)[1..] == line[1..] + rest;
      FirstEndOfLine(line[1..], rest);
    }
  }

  /** What the queue holds comes back as the batch that was spooled. */
  lemma {:induction false} SplitConcat(lines: seq<string>)
    requires AllLines(lines)
    ensures Split(Concat(lines)) == lines
  {
    if lines != [] {
      var rest := Concat(lines[1..]);
      FirstEndOfLine(lines[0], rest);
      SplitConcat(lines[1..]);
      assert (lines[0] + rest)[..|lines[0]|] == lines[0];
      assert (lines[0] + rest)[|lines[0]|..] == rest;
    }
  }

  /** The bytes of a batch, and of a list of batches. */
  function Bytes(lines: seq<string>): nat {
    if lines == [] then 0 else |lines[0]| + Bytes(lines[1..])
  }

  lemma {:induction false} ConcatBytes(lines: seq<string>)
    ensures |Concat(lines)| == Bytes(lines)
  {
    if lines != [] { ConcatBytes(lines[1..]); }
  }
}
