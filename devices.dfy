/** Capture devices: the scanners `parse_dshow_audio_devices` and
    `parse_dshow_video_devices` that read the device list ffmpeg prints for
    `-list_devices true -f dshow`, and the rules by which `start_recording`
    picks the camera and the microphone. The two scanners differ only in
    which section header and which tag they look for, so they are one
    method here with a `DeviceKind` parameter. Running ffmpeg to obtain the
    listing is not part of this model: the listing text is a parameter. */
module Devices {
  import opened Text

  datatype DeviceKind = Audio | Video

  /** The header that opens the section of devices of this kind. */
  function SectionHeader(kind: DeviceKind): string
  {
    match kind
    case Audio => "DirectShow audio devices"
    case Video => "DirectShow video devices"
  }

  /** The header that opens the section of the other kind. */
  function OtherHeader(kind: DeviceKind): string
  {
    match kind
    case Audio => "DirectShow video devices"
    case Video => "DirectShow audio devices"
  }

  /** The tag that marks a device line of this kind outside its section. */
  function DeviceTag(kind: DeviceKind): string
  {
    match kind
    case Audio => "(audio)"
    case Video => "(video)"
  }

  /** What the scanners promise of every name they return. */
  predicate ValidDeviceName(name: string)
  {
    name != [] && Trimmed(name) && '"' !in name
  }

  /** The text between the first two double quotes of `line`, trimmed; none
      when the line has fewer than two quotes or the text is blank. */
  function QuotedName(line: string): (name: Option<string>)
    ensures name.Some? ==> ValidDeviceName(name.value)
  {
    var start := IndexOf(line, '"');
    if start == |line| then None
    else
      var rest := line[start + 1..];
      var end := IndexOf(rest, '"');
      if end == |rest| then None
      else
        var name := Trim(rest[..end]);
        TrimProperties(rest[..end]);
        if name == [] then None else Some(name)
  }

  /** With the first quote at `i` and the second at `j`, the name is the
      trimmed text between them, none when that text is blank. */
  lemma QuotedNameBetween(line: string, i: nat, j: nat)
    requires i < j < |line| && line[i] == '"' && line[j] == '"'
    requires '"' !in line[..i] && '"' !in line[i + 1..j]
    ensures QuotedName(line) == (if Trim(line[i + 1..j]) == [] then None else Some(Trim(line[i + 1..j])))
  {
    IndexOfFirst(line, '"', i);
    var rest := line[i + 1..];
    assert rest[..j - i - 1] == line[i + 1..j];
    IndexOfFirst(rest, '"', j - i - 1);
  }

  /** A line with fewer than two quotes names nothing. */
  lemma QuotedNameNeedsTwoQuotes(line: string)
    requires '"' !in line || exists i :: 0 <= i < |line| && line[i] == '"' && '"' !in line[..i] && '"' !in line[i + 1..]
    ensures QuotedName(line) == None
  {
    if '"' in line {
      var i :| 0 <= i < |line| && line[i] == '"' && '"' !in line[..i] && '"' !in line[i + 1..];
      IndexOfFirst(line, '"', i);
    }
  }

  /** The effect of one line on the scanner: the new section flag and the
      name it offers, if any. */
  datatype LineStep = LineStep(inSection: bool, name: Option<string>)

  /** One iteration of the scanners' loop. A header line only switches the
      section flag; a line containing `(none)` offers nothing; outside the
      section only a line carrying the kind's tag can offer a name. */
  function ScanLine(line: string, kind: DeviceKind, inSection: bool): (step: LineStep)
    ensures Contains(line, SectionHeader(kind)) ==> step == LineStep(true, None)
    ensures !Contains(line, SectionHeader(kind)) && Contains(line, OtherHeader(kind)) ==> step == LineStep(false, None)
    ensures !Contains(line, SectionHeader(kind)) && !Contains(line, OtherHeader(kind)) ==> step.inSection == inSection
    ensures step.name.Some? ==>
      && ValidDeviceName(step.name.value)
      && !Contains(line, "(none)")
      && (inSection || Contains(line, DeviceTag(kind)))
    ensures
      && !Contains(line, SectionHeader(kind)) && !Contains(line, OtherHeader(kind))
      && (inSection || Contains(line, DeviceTag(kind))) && !Contains(line, "(none)")
      ==> step.name == QuotedName(line)
  {
    if Contains(line, SectionHeader(kind)) then LineStep(true, None)
    else if Contains(line, OtherHeader(kind)) then LineStep(false, None)
    else if !inSection && !Contains(line, DeviceTag(kind)) then LineStep(inSection, None)
    else if Contains(line, "(none)") then LineStep(inSection, None)
    else LineStep(inSection, QuotedName(line))
  }

  /** The names the lines offer, in order, repeats included, starting with
      the section flag `inSection`. */
  function Candidates(lines: seq<string>, kind: DeviceKind, inSection: bool): (names: seq<string>)
    ensures forall name :: name in names ==> ValidDeviceName(name)
  {
    if lines == [] then []
    else
      var step := ScanLine(lines[0], kind, inSection);
      (if step.name.Some? then [step.name.value] else []) + Candidates(lines[1..], kind, step.inSection)
  }

  /** `if !devices.iter().any(|item| item == name) { devices.push(name) }` */
  function AddUnique(devices: seq<string>, name: string): seq<string>
  {
    if name in devices then devices else devices + [name]
  }

  /** Pushing unless present keeps the list as a prefix, leaves the name in
      it, adds at most one element and nothing but the name, and keeps a
      list without duplicates without duplicates. */
  lemma AddUniqueProperties(devices: seq<string>, name: string)
    ensures var added := AddUnique(devices, name);
      && devices <= added && name in added && |added| <= |devices| + 1
      && (forall x :: x in added ==> x in devices || x == name)
      && (NoDuplicates(devices) ==> NoDuplicates(added))
  {
    if name !in devices {
      var added := devices + [name];
      assert forall i :: 0 <= i < |devices| ==> added[i] == devices[i];
    }
  }

  /** The scanners' accumulation, one offered name at a time from the front. */
  function DedupInto(devices: seq<string>, names: seq<string>): seq<string>
    decreases |names|
  {
    if names == [] then devices else DedupInto(AddUnique(devices, names[0]), names[1..])
  }

  /** Reference definition of the result: every name at its first
      occurrence, later repeats dropped. */
  function KeepFirst<T(==)>(s: seq<T>): seq<T>
  {
    if s == [] then []
    else
      var init := s[..|s| - 1];
      KeepFirst(init) + (if s[|s| - 1] in init then [] else [s[|s| - 1]])
  }

  predicate NoDuplicates<T(==)>(s: seq<T>)
  {
    forall i, j :: 0 <= i < j < |s| ==> s[i] != s[j]
  }

  /** The position of the first occurrence of `x` in `s`. */
  function FirstIndex<T(==)>(s: seq<T>, x: T): (k: nat)
    requires x in s
    ensures k < |s| && s[k] == x && x !in s[..k]
  {
    if s[0] == x then 0
    else
      var k := 1 + FirstIndex(s[1..], x);
      assert s[..k] == [s[0]] + s[1..][..k - 1];
      k
  }

  /** `KeepFirst` holds each element of `s` exactly once. */
  lemma {:induction false} KeepFirstElements<T>(s: seq<T>)
    ensures NoDuplicates(KeepFirst(s))
    ensures forall x :: x in KeepFirst(s) <==> x in s
  {
    if s != [] {
      var init, last := s[..|s| - 1], s[|s| - 1];
      KeepFirstElements(init);
      assert s == init + [last];
    }
  }

  lemma FirstIndexInPrefix<T>(s: seq<T>, t: seq<T>, x: T)
    requires x in s
    ensures FirstIndex(s + t, x) == FirstIndex(s, x)
  {
    var k, m := FirstIndex(s, x), FirstIndex(s + t, x);
    assert (s + t)[k] == x;
    assert forall i :: 0 <= i < k ==> s[i] != x && (s + t)[i] == s[i];
    assert forall i :: 0 <= i < m ==> (s + t)[..m][i] != x;
  }

  /** `KeepFirst` lists the elements in the order of their first occurrence. */
  lemma {:induction false} KeepFirstOrder<T>(s: seq<T>)
    ensures forall x :: x in KeepFirst(s) ==> x in s
    ensures forall i, j :: 0 <= i < j < |KeepFirst(s)| ==>
      FirstIndex(s, KeepFirst(s)[i]) < FirstIndex(s, KeepFirst(s)[j])
  {
    KeepFirstElements(s);
    if s != [] {
      var init, last := s[..|s| - 1], s[|s| - 1];
      assert s == init + [last];
      KeepFirstOrder(init);
      KeepFirstElements(init);
      var r, r0 := KeepFirst(s), KeepFirst(init);
      forall i, j | 0 <= i < j < |r|
        ensures FirstIndex(s, r[i]) < FirstIndex(s, r[j])
      {
        FirstIndexInPrefix(init, [last], r[i]);
        if j < |r0| {
          FirstIndexInPrefix(init, [last], r[j]);
        } else {
          assert r[j] == last && last !in init;
          assert s[..|init|] == init;
        }
      }
    }
  }

  /** Offering one more name extends the reference definition by it unless
      it was offered before. */
  lemma KeepFirstSnoc(prefix: seq<string>, x: string)
    ensures KeepFirst(prefix + [x]) == AddUnique(KeepFirst(prefix), x)
  {
    KeepFirstElements(prefix);
    var extended := prefix + [x];
    assert extended[..|extended| - 1] == prefix;
    assert extended[|extended| - 1] == x;
    assert x in KeepFirst(prefix) <==> x in prefix;
  }

  /** The scanners' accumulation computes the reference definition. */
  lemma {:induction false} DedupIntoKeepFirst(prefix: seq<string>, names: seq<string>)
    ensures DedupInto(KeepFirst(prefix), names) == KeepFirst(prefix + names)
    decreases |names|
  {
    if names == [] {
      assert prefix + names == prefix;
    } else {
      var x := names[0];
      KeepFirstSnoc(prefix, x);
      DedupIntoKeepFirst(prefix + [x], names[1..]);
      assert (prefix + [x]) + names[1..] == prefix + names;
    }
  }

  /** Accumulating from no devices keeps the first occurrence of each
      offered name, and so keeps only valid names, each once. */
  lemma DedupFromEmpty(names: seq<string>)
    requires forall name :: name in names ==> ValidDeviceName(name)
    ensures DedupInto([], names) == KeepFirst(names)
    ensures NoDuplicates(KeepFirst(names))
    ensures forall i :: 0 <= i < |KeepFirst(names)| ==> ValidDeviceName(KeepFirst(names)[i])
  {
    DedupIntoKeepFirst([], names);
    assert [] + names == names;
    KeepFirstElements(names);
    assert forall i :: 0 <= i < |KeepFirst(names)| ==> KeepFirst(names)[i] in names;
  }

  /** One line of the scan: the accumulation over the remaining lines,
      taken one line further. */
  lemma ScanStep(lines: seq<string>, i: nat, kind: DeviceKind, inSection: bool, devices: seq<string>)
    requires i < |lines|
    ensures var step := ScanLine(lines[i], kind, inSection);
      DedupInto(devices, Candidates(lines[i..], kind, inSection))
      == DedupInto(if step.name.Some? then AddUnique(devices, step.name.value) else devices,
                   Candidates(lines[i + 1..], kind, step.inSection))
  {
    var step := ScanLine(lines[i], kind, inSection);
    assert lines[i..][0] == lines[i] && lines[i..][1..] == lines[i + 1..];
    var rest := Candidates(lines[i + 1..], kind, step.inSection);
    if step.name.Some? {
      assert ([step.name.value] + rest)[1..] == rest;
    } else {
      assert [] + rest == rest;
    }
  }

  /** `parse_dshow_audio_devices` (kind `Audio`) and
      `parse_dshow_video_devices` (kind `Video`): the names the listing's
      lines offer, each once, in the order of their first occurrence. */
  method ParseDshowDevices(listing: string, kind: DeviceKind) returns (devices: seq<string>)
    ensures devices == KeepFirst(Candidates(Lines(listing), kind, false))
    ensures NoDuplicates(devices)
    ensures forall i :: 0 <= i < |devices| ==> ValidDeviceName(devices[i])
  {
    var lines := Lines(listing);
    devices := [];
    var inSection := false;
    var i := 0;
    ghost var total := DedupInto([], Candidates(lines, kind, false));
    while i < |lines|
      invariant 0 <= i <= |lines|
      invariant DedupInto(devices, Candidates(lines[i..], kind, inSection)) == total
    {
      var line := lines[i];
      ghost var step := ScanLine(line, kind, inSection);
      ghost var next := if step.name.Some? then AddUnique(devices, step.name.value) else devices;
      ScanStep(lines, i, kind, inSection, devices);
      if Contains(line, SectionHeader(kind)) {
        inSection := true;
      } else if Contains(line, OtherHeader(kind)) {
        inSection := false;
      } else if !inSection && !Contains(line, DeviceTag(kind)) {
      } else if Contains(line, "(none)") {
      } else {
        var name := QuotedName(line);
        if name.Some? && name.value !in devices {
          devices := devices + [name.value];
        }
      }
      assert inSection == step.inSection && devices == next;
      assert DedupInto(devices, Candidates(lines[i + 1..], kind, inSection)) == total;
      i := i + 1;
    }
    assert lines[i..] == [];
    DedupFromEmpty(Candidates(lines, kind, false));
  }

  /** `requested.unwrap_or_else(|| "auto".into())` */
  function RequestedOrAuto(requested: Option<string>): string
  {
    if requested.Some? then requested.value else "auto"
  }

  predicate IsAutoChoice(device: string) { device == "auto" || device == "default" }

  /** The words that switch the camera off. */
  predicate IsCameraOff(device: string) { device == "off" || device == "none" || device == "no-camera" }

  /** The camera choice of `start_recording`. `"auto"` (also when nothing is
      requested) and `"default"` take the first listed video device, and an
      error of the listing is passed on; the off words and a blank name mean
      no camera; any other name is taken as it is, untrimmed. */
  function SelectCamera(requested: Option<string>, listing: Result<seq<string>>): (choice: Result<Option<string>>)
    ensures var device := RequestedOrAuto(requested);
      && (choice.Err? ==> IsAutoChoice(device) && listing == Err(choice.error))
      && (choice == Ok(None) <==>
            (IsAutoChoice(device) && listing == Ok([])) || (!IsAutoChoice(device) && (IsCameraOff(device) || Blank(device))))
      && (choice.Ok? && choice.value.Some? ==>
            if IsAutoChoice(device) then listing.Ok? && listing.value != [] && choice.value.value == listing.value[0]
            else choice.value.value == device && !IsCameraOff(device) && !Blank(device))
  {
    var device := RequestedOrAuto(requested);
    TrimProperties(device);
    if IsAutoChoice(device) then
      match listing
      case Err(e) => Err(e)
      case Ok(devices) => Ok(if devices == [] then None else Some(devices[0]))
    else if !IsCameraOff(device) && Trim(device) != [] then Ok(Some(device))
    else Ok(None)
  }

  /** The microphone choice of `start_recording`: as for the camera, but
      only `"mute"` and a blank name mean no microphone. */
  function SelectMicrophone(requested: Option<string>, listing: Result<seq<string>>): (choice: Result<Option<string>>)
    ensures var device := RequestedOrAuto(requested);
      && (choice.Err? ==> IsAutoChoice(device) && listing == Err(choice.error))
      && (choice == Ok(None) <==>
            (IsAutoChoice(device) && listing == Ok([])) || (!IsAutoChoice(device) && (device == "mute" || Blank(device))))
      && (choice.Ok? && choice.value.Some? ==>
            if IsAutoChoice(device) then listing.Ok? && listing.value != [] && choice.value.value == listing.value[0]
            else choice.value.value == device && device != "mute" && !Blank(device))
  {
    var device := RequestedOrAuto(requested);
    TrimProperties(device);
    if IsAutoChoice(device) then
      match listing
      case Err(e) => Err(e)
      case Ok(devices) => Ok(if devices == [] then None else Some(devices[0]))
    else if device != "mute" && Trim(device) != [] then Ok(Some(device))
    else Ok(None)
  }

  /** An explicit choice never depends on the device listing, and the words
      that switch the camera off are ordinary device names for the microphone. */
  lemma ExplicitChoiceIgnoresListing(device: string, listing1: Result<seq<string>>, listing2: Result<seq<string>>)
    requires !IsAutoChoice(device)
    ensures SelectCamera(Some(device), listing1) == SelectCamera(Some(device), listing2)
    ensures SelectMicrophone(Some(device), listing1) == SelectMicrophone(Some(device), listing2)
    ensures IsCameraOff(device) ==>
      SelectCamera(Some(device), listing1) == Ok(None) && SelectMicrophone(Some(device), listing1) == Ok(Some(device))
  {
  }
}
