/** `find_closest_command`: what an unknown command is corrected to. */
module Suggest {
  import opened Options
  import opened CStrings
  import opened EditDistance

  const BUFFER_SIZE := 8192

  // ------------------------------------------------------------ lower case

  function ToLower(c: char): char {
    if 'A' <= c <= 'Z' then c - 'A' + 'a' else c
  }

  // 'A' to 'Z' are raised by 32, and nothing else changes.
  lemma {:induction false} ToLowerIs(c: char)
    ensures ToLower(c) as int == if 65 <= c as int <= 90 then c as int + 32 else c as int
  {
    assert 'A' as int == 65 && 'Z' as int == 90 && 'a' as int == 97;
  }

  function Lower(s: string): string {
    seq(|s|, i requires 0 <= i < |s| => ToLower(s[i]))
  }

  method Strcpy(dst: array<char>, src: string)
    requires NoNul(src, '\0') && |src| < dst.Length
    modifies dst
    ensures '\0' in dst[..] && CString(dst[..], '\0') == src
  {
    for i := 0 to |src|
      invariant dst[..i] == src[..i]
    {
      dst[i] := src[i];
    }
    dst[|src|] := '\0';
    assert dst[..][|src|] == '\0';
    assert dst[..][..|src|] == src;
    CStringIs(dst[..], src, '\0');
  }

  lemma {:induction false} EndsAtNul(buffer: seq<char>)
    requires '\0' in buffer
    ensures var s := CString(buffer, '\0');
            |s| < |buffer| && buffer[|s|] == '\0' && s == buffer[..|s|] && NoNul(s, '\0')
  {
  }

  method ToLowercase(str: array<char>)
    requires '\0' in str[..]
    modifies str
    ensures '\0' in str[..]
    ensures CString(str[..], '\0') == Lower(CString(old(str[..]), '\0'))
    ensures str[|CString(old(str[..]), '\0')|..] == old(str[|CString(str[..], '\0')|..])
  {
    ghost var s := CString(str[..], '\0');
    EndsAtNul(str[..]);
    hide CString;
    var i := 0;
    while str[i] != '\0'
      invariant 0 <= i <= |s| < str.Length
      invariant forall k :: 0 <= k < i ==> str[k] == ToLower(s[k])
      invariant forall k :: i <= k < str.Length ==> str[k] == old(str[k])
      decreases |s| - i
    {
      str[i] := ToLower(str[i]);
      i := i + 1;
    }
    assert str[..][|s|] == '\0';
    assert str[..][..|s|] == Lower(s);
    CStringIs(str[..], Lower(s), '\0');
  }

  // A lower-case copy in a buffer on the stack.
  method LowercaseCopy(src: string) returns (copy: string)
    requires NoNul(src, '\0') && |src| < BUFFER_SIZE
    ensures copy == Lower(src)
  {
    var buffer := new char[BUFFER_SIZE];
    Strcpy(buffer, src);
    ToLowercase(buffer);
    copy := CString(buffer[..], '\0');
  }

  predicate OccursAt(hay: string, needle: string, k: nat) {
    k + |needle| <= |hay| && hay[k..k + |needle|] == needle
  }

  // strstr(hay, needle) != NULL
  predicate Contains(hay: string, needle: string) {
    exists k :: 0 <= k <= |hay| && OccursAt(hay, needle, k)
  }

  lemma {:induction false} ContainsIs(hay: string, needle: string)
    ensures Contains(hay, needle) <==> exists a: string, b: string :: hay == a + needle + b
  {
    if Contains(hay, needle) {
      var k :| 0 <= k <= |hay| && OccursAt(hay, needle, k);
      assert hay == hay[..k] + needle + hay[k + |needle|..];
    }
    forall a: string, b: string | hay == a + needle + b
      ensures Contains(hay, needle)
    {
      assert OccursAt(hay, needle, |a|);
    }
  }

  // ------------------------------------------------------------ the search

  function Hits(input: string, command: string): bool {
    Contains(Lower(command), Lower(input))
  }

  function Distance(input: string, command: string): int {
    Dist(Lower(input), Lower(command))
  }

  function Threshold(input: string): int {
    if 3 < |input| / 2 then |input| / 2 else 3
  }

  const FAR := 1000

  ghost predicate IsFirstHit(input: string, table: seq<string>, i: int) {
    0 <= i < |table| && Hits(input, table[i]) && forall j :: 0 <= j < i ==> !Hits(input, table[j])
  }

  ghost function Distances(input: string, table: seq<string>): (ds: seq<int>)
    ensures |ds| == |table|
    ensures forall i :: 0 <= i < |table| ==> ds[i] == Distance(input, table[i])
  {
    seq(|table|, i requires 0 <= i < |table| => Distance(input, table[i]))
  }

  // The first of the least numbers of a list.
  ghost predicate IsFirstLeast(ds: seq<int>, i: int) {
    && 0 <= i < |ds|
    && (forall j :: 0 <= j < |ds| ==> ds[i] <= ds[j])
    && (forall j :: 0 <= j < i ==> ds[i] < ds[j])
  }

  // The earliest of the commands at the least distance.
  ghost predicate IsNearest(input: string, table: seq<string>, i: int) {
    IsFirstLeast(Distances(input, table), i)
  }

  ghost predicate Close(input: string, command: string) {
    Distance(input, command) <= Threshold(input) && Distance(input, command) < FAR
  }

  // `r` is the position in the table of the suggested command.
  ghost predicate IsSuggestion(input: string, table: seq<string>, r: Option<nat>) {
    if exists i :: 0 <= i < |table| && Hits(input, table[i]) then
      r.Some? && IsFirstHit(input, table, r.value)
    else if exists i :: 0 <= i < |table| && Close(input, table[i]) then
      r.Some? && IsNearest(input, table, r.value)
    else
      r.None?
  }

  ghost predicate Commands(table: seq<string>) {
    forall i :: 0 <= i < |table| ==> NoNul(table[i], '\0') && |table[i]| < BUFFER_SIZE
  }

  // The first loop: superstrings take priority.
  method SubstringMatch(ghost input: string, inputCopy: string, table: seq<string>) returns (r: Option<nat>)
    requires inputCopy == Lower(input) && Commands(table)
    ensures r.Some? ==> IsFirstHit(input, table, r.value)
    ensures r.None? ==> forall j :: 0 <= j < |table| ==> !Hits(input, table[j])
  {
    for i := 0 to |table|
      invariant forall j :: 0 <= j < i ==> !Hits(input, table[j])
    {
      var cmdCopy := LowercaseCopy(table[i]);
      if Contains(cmdCopy, inputCopy) {
        return Some(i);
      }
    }
    return None;
  }

  // The second loop: the earliest command of least distance, if any is nearer than 1000.
  method LevenshteinMatch(ghost input: string, inputCopy: string, table: seq<string>)
    returns (minDist: int, bestMatch: Option<nat>)
    requires inputCopy == Lower(input) && Commands(table)
    ensures bestMatch.Some? ==> IsNearest(input, table, bestMatch.value)
    ensures bestMatch.Some? ==> minDist == Distance(input, table[bestMatch.value]) < FAR
    ensures bestMatch.None? ==> minDist == FAR && forall j :: 0 <= j < |table| ==> FAR <= Distance(input, table[j])
  {
    ghost var ds := Distances(input, table);
    minDist := FAR;
    bestMatch := None;
    for i := 0 to |table|
      invariant bestMatch.None? ==> minDist == FAR
      invariant forall j :: 0 <= j < i ==> minDist <= ds[j]
      invariant bestMatch.Some? ==> bestMatch.value < i && minDist == ds[bestMatch.value] < FAR
      invariant bestMatch.Some? ==> forall j :: 0 <= j < bestMatch.value ==> minDist < ds[j]
    {
      var dist := DistanceTo(inputCopy, table[i]);
      assert dist == ds[i];
      if dist < minDist {
        minDist := dist;
        bestMatch := Some(i);
      }
    }
  }

  method DistanceTo(inputCopy: string, cmdName: string) returns (dist: int)
    requires NoNul(cmdName, '\0') && |cmdName| < BUFFER_SIZE
    ensures dist == Dist(inputCopy, Lower(cmdName))
  {
    var cmdCopy := LowercaseCopy(cmdName);
    dist := Levenshtein(inputCopy, cmdCopy);
  }

  method FindClosestCommand(input: string, table: seq<string>) returns (r: Option<nat>)
    requires NoNul(input, '\0') && |input| < BUFFER_SIZE && Commands(table)
    ensures IsSuggestion(input, table, r)
    ensures forall i: nat, a: string, b: string ::
              i < |table| && Lower(table[i]) == a + Lower(input) + b ==> r.Some? && r.value <= i
  {
    forall i: nat, a: string, b: string | i < |table| && Lower(table[i]) == a + Lower(input) + b
      ensures forall q: Option<nat> :: IsSuggestion(input, table, q) ==> q.Some? && q.value <= i
    {
      ContainsIs(Lower(table[i]), Lower(input));
      assert Hits(input, table[i]);
    }
    var inputCopy := LowercaseCopy(input);
    r := SubstringMatch(input, inputCopy, table);
    if r.Some? {
      return;
    }
    var minDist, bestMatch := LevenshteinMatch(input, inputCopy, table);
    var maxLen := |input|;
    var threshold := if 3 < maxLen / 2 then maxLen / 2 else 3;
    if minDist <= threshold {
      assert bestMatch.Some? ==> Close(input, table[bestMatch.value]);
      return bestMatch;
    }
    return None;
  }

  // ------------------------------------------------------------ what the search guarantees

  lemma {:induction false} SuggestionIsUnique(input: string, table: seq<string>, r: Option<nat>, r': Option<nat>)
    requires IsSuggestion(input, table, r) && IsSuggestion(input, table, r')
    ensures r == r'
  {
  }

  // A command has the input in it, but for case.
  ghost predicate HasInside(command: string, input: string) {
    exists a: string, b: string :: Lower(command) == a + Lower(input) + b
  }

  // Turning the input into the command takes `d` edits and no fewer, which is near enough.
  ghost predicate IsNear(input: string, command: string, d: int) {
    IsOptimal(Lower(input), Lower(command), d) && (d <= 3 || 2 * d <= |input|) && d < 1000
  }

  lemma {:induction false} NearIs(input: string, command: string)
    ensures IsNear(input, command, Distance(input, command)) <==> Close(input, command)
    ensures forall d :: IsNear(input, command, d) ==> d == Distance(input, command)
  {
    DistIsOptimal(Lower(input), Lower(command));
    forall d | IsNear(input, command, d)
      ensures d == Distance(input, command)
    {
      OptimalIsUnique(Lower(input), Lower(command), d);
    }
  }

  // What is suggested, without the program's own words: the first command with the input
  // inside; if there is none, the earliest of those to which the fewest edits lead, if that
  // is at most 3 or half the length of the input; and otherwise nothing.
  lemma {:induction false} SuggestionMeans(input: string, table: seq<string>, r: Option<nat>)
    requires IsSuggestion(input, table, r)
    ensures r.Some? ==> r.value < |table|
    ensures forall i :: 0 <= i < |table| && HasInside(table[i], input) ==>
              r.Some? && r.value <= i && HasInside(table[r.value], input)
    ensures forall i, d :: 0 <= i < |table| && IsNear(input, table[i], d) ==> r.Some?
    ensures r.Some? && !HasInside(table[r.value], input) ==>
              exists best :: IsNear(input, table[r.value], best) &&
                forall i, d :: 0 <= i < |table| && IsNear(input, table[i], d) ==>
                  best <= d && (i < r.value ==> best < d)
  {
    hide IsNear, Close, Dist, Lower, Threshold;
    forall i | 0 <= i < |table|
      ensures HasInside(table[i], input) <==> Hits(input, table[i])
      ensures IsNear(input, table[i], Distance(input, table[i])) <==> Close(input, table[i])
      ensures forall d :: IsNear(input, table[i], d) ==> d == Distance(input, table[i])
    {
      ContainsIs(Lower(table[i]), Lower(input));
      NearIs(input, table[i]);
    }
    if r.Some? && !HasInside(table[r.value], input) {
      NearestIsNear(input, table, r.value);
    }
  }

  lemma {:induction false} NearestIsNear(input: string, table: seq<string>, k: nat)
    requires IsNearest(input, table, k) && exists i :: 0 <= i < |table| && Close(input, table[i])
    ensures Close(input, table[k])
    ensures forall i :: 0 <= i < |table| ==> Distance(input, table[k]) <= Distance(input, table[i])
    ensures forall i :: 0 <= i < k ==> Distance(input, table[k]) < Distance(input, table[i])
  {
  }

  // "file" is completed to "sendFile".
  lemma {:induction false} FileIsSendFile(r: Option<nat>)
    requires IsSuggestion("file", COMMANDS, r)
    ensures r == Some(4) && COMMANDS[4] == "sendFile"
  {
    hide Lower, IsNear;
    forall i | 0 <= i < 4
      ensures !HasInside(COMMANDS[i], "file")
    {
      NoFileIn(i);
    }
    FileInSendFile();
    assert COMMANDS[4] == "sendFile" && HasInside(COMMANDS[4], "file");
    SuggestionMeans("file", COMMANDS, r);
  }

  lemma {:induction false} FileInSendFile()
    ensures HasInside("sendFile", "file")
  {
    assert Lower("sendFile") == "send" + Lower("file") + "";
  }

  lemma {:induction false} NoFileIn(i: nat)
    requires i < 4
    ensures !HasInside(COMMANDS[i], "file")
  {
    var l := Lower(COMMANDS[i]);
    assert Lower("file") == "file";
    assert forall k :: 0 <= k < |l| ==> l[k] != 'f';
    forall a: string, b: string
      ensures l != a + Lower("file") + b
    {
      assert (a + Lower("file") + b)[|a|] == 'f';
    }
  }

  // The same letter, or two cases of one letter of the alphabet.
  predicate SameLetter(c: char, d: char) {
    || c == d
    || ('A' <= c <= 'Z' && d as int == c as int + 32)
    || ('A' <= d <= 'Z' && c as int == d as int + 32)
  }

  lemma {:induction false} LoweringMergesCases(c: char, d: char)
    ensures ToLower(c) == ToLower(d) <==> SameLetter(c, d)
  {
    assert 'a' as int == 'A' as int + 32;
  }

  // Typing the input in another case changes nothing.
  lemma {:induction false} CaseIsIgnored(input: string, input': string, table: seq<string>, r: Option<nat>)
    requires |input| == |input'|
    requires forall k :: 0 <= k < |input| ==> SameLetter(input[k], input'[k])
    requires IsSuggestion(input, table, r)
    ensures IsSuggestion(input', table, r)
  {
    forall k | 0 <= k < |input|
      ensures Lower(input)[k] == Lower(input')[k]
    {
      LoweringMergesCases(input[k], input'[k]);
    }
    assert Lower(input) == Lower(input');
    assert Distances(input, table) == Distances(input', table);
    assert forall i :: 0 <= i < |table| ==> Hits(input, table[i]) == Hits(input', table[i]);
    assert forall i :: 0 <= i < |table| ==> Close(input, table[i]) == Close(input', table[i]);
  }

  const COMMANDS: seq<string> := [
    "listConnections",
    "status",
    "exit",
    "connect",
    "sendFile",
    "receiveFile",
    "runDistributiveSystems"
  ]
  const LONGEST := 22

  lemma {:induction false} CommandsFit(i: nat)
    requires i < |COMMANDS|
    ensures |COMMANDS[i]| <= LONGEST < BUFFER_SIZE && NoNul(COMMANDS[i], '\0')
  {
  }

  // The texts a suggestion stands for.
  lemma CommandTexts()
    ensures |COMMANDS| == 7 && COMMANDS[0] == "listConnections" && COMMANDS[1] == "status" && COMMANDS[2] == "exit"
    ensures COMMANDS[3] == "connect" && COMMANDS[4] == "sendFile" && COMMANDS[5] == "receiveFile"
    ensures COMMANDS[6] == "runDistributiveSystems"
  {
  }

  // By the lower bound on distances: no command is within half the length of a long input.
  lemma {:induction false} LongInputIsFar(input: string, command: string)
    requires |command| <= LONGEST && |input| > 2 * LONGEST
    ensures !Hits(input, command) && Distance(input, command) > Threshold(input)
  {
    DistBounds(Lower(input), Lower(command));
  }

  lemma {:induction false} NothingForLongInput(input: string, r: Option<nat>)
    requires IsSuggestion(input, COMMANDS, r)
    requires |input| > 44
    ensures r.None?
  {
    forall i | 0 <= i < |COMMANDS|
      ensures !Hits(input, COMMANDS[i]) && !Close(input, COMMANDS[i])
    {
      CommandsFit(i);
      LongInputIsFar(input, COMMANDS[i]);
    }
  }

  // The cap of 1000 never matters for the program's own table: the nearest command is
  // suggested exactly when no superstring exists and it is within the threshold.
  lemma {:induction false} CapIsIrrelevant(input: string, r: Option<nat>, i: nat)
    requires IsSuggestion(input, COMMANDS, r)
    requires IsNearest(input, COMMANDS, i)
    requires forall j :: 0 <= j < |COMMANDS| ==> !Hits(input, COMMANDS[j])
    ensures r == if Distance(input, COMMANDS[i]) <= Threshold(input) then Some(i) else None
  {
    if |input| > 2 * LONGEST {
      NothingForLongInput(input, r);
      CommandsFit(i);
      LongInputIsFar(input, COMMANDS[i]);
    } else if Distance(input, COMMANDS[i]) <= Threshold(input) {
      assert Close(input, COMMANDS[i]);
    }
  }

  // The bound of 44 characters is tight: the longest command followed by 22 more
  // characters is still corrected to that command.
  lemma {:induction false} BoundIsTight(more: string, r: Option<nat>)
    requires |more| == LONGEST
    requires IsSuggestion(COMMANDS[6] + more, COMMANDS, r)
    ensures r == Some(6)
  {
    var input := COMMANDS[6] + more;
    ExtendedDistance(COMMANDS[6], more);
    forall j | 0 <= j < |COMMANDS|
      ensures !Hits(input, COMMANDS[j])
      ensures j != 6 ==> Distance(input, COMMANDS[j]) > LONGEST
    {
      OthersAreFar(input, j);
    }
    assert Close(input, COMMANDS[6]);
    assert IsNearest(input, COMMANDS, 6);
    SuggestionIsUnique(input, COMMANDS, r, Some(6));
  }

  lemma {:induction false} ExtendedDistance(command: string, more: string)
    ensures Distance(command + more, command) == |more|
  {
    assert Lower(command + more) == Lower(command) + Lower(more);
    DistOfExtension(Lower(command), Lower(more));
    DistSymmetric(Lower(command + more), Lower(command));
  }

  lemma {:induction false} OthersAreFar(input: string, j: nat)
    requires j < |COMMANDS| && |input| == 2 * LONGEST
    ensures !Hits(input, COMMANDS[j])
    ensures j != 6 ==> Distance(input, COMMANDS[j]) > LONGEST
  {
    CommandsFit(j);
    DistBounds(Lower(input), Lower(COMMANDS[j]));
  }
}
