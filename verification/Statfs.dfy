/** Reading the output of `stat -f`: words, some of which are keys that end in a colon. */
module Statfs {
  import opened Bytes
  import opened Wrappers

  const TWO_32: int := 0x1_0000_0000

  datatype Record = Record(nameLen: int, bsize: int, blocks: int, bfree: int, bavail: int, files: int, ffree: int)

  const ZERO := Record(0, 0, 0, 0, 0, 0, 0)

  // ----- words and numbers -----

  predicate IsSpace(c: char) {
    c in " \t\n\r\U{000B}\U{000C}\U{0085}\U{00A0}\U{1680}\U{2028}\U{2029}\U{202F}\U{205F}\U{3000}"
    || '\U{2000}' <= c <= '\U{200A}'
  }

  /** The length of the word at the front of `s`. */
  function WordLength(s: string): (n: nat)
    ensures n <= |s| && (forall i | 0 <= i < n :: !IsSpace(s[i])) && (n < |s| ==> IsSpace(s[n]))
  {
    if s == "" || IsSpace(s[0]) then 0 else 1 + WordLength(s[1..])
  }

  /** The space-separated words of `s`. */
  function Words(s: string): seq<string>
    decreases |s|
  {
    if s == "" then []
    else if IsSpace(s[0]) then Words(s[1..])
    else [s[..WordLength(s)]] + Words(s[WordLength(s)..])
  }

  predicate AllDigits(s: string) {
    forall i | 0 <= i < |s| :: '0' <= s[i] <= '9'
  }

  function Value(s: string): nat
    requires AllDigits(s)
  {
    if s == "" then 0
    else 10 * Value(s[..|s| - 1]) + (s[|s| - 1] as int - '0' as int)
  }

  /** A decimal number with an optional sign that fits an int64. */
  function Atoi(s: string): Option<int> {
    var signed := s != "" && (s[0] == '+' || s[0] == '-');
    var digits := if signed then s[1..] else s;
    if digits == "" || !AllDigits(digits) then None
    else
      var v := (if s[0] == '-' then -1 else 1) * Value(digits);
      if FitsInt64(v) then Some(v) else None
  }

  // ----- the parser -----

  predicate EndsInColon(s: string) {
    s != "" && s[|s| - 1] == ':'
  }

  function TrimColon(s: string): string {
    if EndsInColon(s) then s[..|s| - 1] else s
  }

  datatype Scan = Going(scope: string, key: string, stat: Record) | Bad(badKey: string, badValue: string)

  datatype Parse = Parsed(stat: Record) | NoOutput | Invalid(key: string, value: string)

  predicate IsNumeric(key: string) {
    key in ["Namelen", "Blocksize", "Total", "Free", "Available"]
  }

  /** The record after `key` has been read with the number `n`, with the conversions to the field types. */
  function Assigned(stat: Record, scope: string, key: string, n: int): Record {
    match key
    case "Namelen" => stat.(nameLen := n % TWO_32)
    case "Blocksize" => stat.(bsize := n % TWO_32)
    case "Total" =>
      if scope == "Blocks" then stat.(blocks := n % (2 * TWO_63))
      else if scope == "Inodes" then stat.(files := n % (2 * TWO_63)) else stat
    case "Free" =>
      if scope == "Blocks" then stat.(bfree := n % (2 * TWO_63))
      else if scope == "Inodes" then stat.(ffree := n % (2 * TWO_63)) else stat
    case "Available" => if scope == "Blocks" then stat.(bavail := n % (2 * TWO_63)) else stat
    case _ => stat
  }

  function Step(st: Scan, w: string): Scan
    requires st.Going?
  {
    if !EndsInColon(st.key) then st.(key := st.key + w)
    else if EndsInColon(w) then st.(scope := TrimColon(st.key), key := w)
    else
      var key := TrimColon(st.key);
      if !IsNumeric(key) then st.(key := "")
      else
        match Atoi(w)
        case None => Bad(key, w)
        case Some(n) => Going(st.scope, "", Assigned(st.stat, st.scope, key, n))
  }

  function ScanWords(st: Scan, words: seq<string>): Scan
    decreases |words|
  {
    if st.Bad? || words == [] then st else ScanWords(Step(st, words[0]), words[1..])
  }

  function Result(st: Scan): Parse {
    match st
    case Going(_, _, stat) => Parsed(stat)
    case Bad(key, value) => Invalid(key, value)
  }

  method ParseStatfs(output: string) returns (r: Parse)
    ensures r == if output == "" then NoOutput else Result(ScanWords(Going("", "", ZERO), Words(output)))
  {
    if output == "" {
      return NoOutput;
    }
    var words := Words(output);
    var scope, key, stat := "", "", ZERO;
    for i := 0 to |words|
      invariant ScanWords(Going("", "", ZERO), words) == ScanWords(Going(scope, key, stat), words[i..])
    {
      var w := words[i];
      assert words[i..][0] == w && words[i..][1..] == words[i + 1..];
      if !EndsInColon(key) {
        key := key + w;
        continue;
      } else if EndsInColon(w) {
        scope := TrimColon(key);
        key := w;
        continue;
      }
      key := TrimColon(key);
      var n := Atoi(w);
      if IsNumeric(key) {
        if n.None? {
          return Invalid(key, w);
        }
        stat := Assigned(stat, scope, key, n.value);
      }
      key := "";
    }
    r := Parsed(stat);
  }
}
