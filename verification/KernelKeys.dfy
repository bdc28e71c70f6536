// The kernel's numbering of the keys that type nothing, as a check on the table from usages to codes.
module KernelKeys {
  import opened Wrappers
  import opened Keymap

  // The usage of the key with this number in the kernel's list.
  function UsageOf(code: KeyCode): Usage {
    if 59 <= code <= 68 then 0x3A + (code - 59)
    else if 183 <= code <= 194 then 0x68 + (code - 183)
    else if 71 <= code <= 73 then 0x5F + (code - 71)
    else if 75 <= code <= 77 then 0x5C + (code - 75)
    else if 79 <= code <= 81 then 0x59 + (code - 79)
    else
      match code
      case 1 => 0x29
      case 29 => 0xE0
      case 42 => 0xE1
      case 54 => 0xE5
      case 55 => 0x55
      case 56 => 0xE2
      case 58 => 0x39
      case 69 => 0x53
      case 70 => 0x47
      case 74 => 0x56
      case 78 => 0x57
      case 82 => 0x62
      case 83 => 0x63
      case 86 => 0x64
      case 87 => 0x44
      case 88 => 0x45
      case 96 => 0x58
      case 97 => 0xE4
      case 98 => 0x54
      case 99 => 0x46
      case 100 => 0xE6
      case 102 => 0x4A
      case 103 => 0x52
      case 104 => 0x4B
      case 105 => 0x50
      case 106 => 0x4F
      case 107 => 0x4D
      case 108 => 0x51
      case 109 => 0x4E
      case 110 => 0x49
      case 111 => 0x4C
      case 119 => 0x48
      case 125 => 0xE3
      case 126 => 0xE7
      case 127 => 0x65
      case _ => 0
  }

  // Escape, Caps Lock, F1 to F24, the keys between the letters and the keypad, the keypad and the modifiers.
  predicate TypesNothing(usage: Usage) {
    usage in {0x29, 0x39} || 0x3A <= usage <= 0x65 || 0x68 <= usage <= 0x73 || 0xE0 <= usage <= 0xE7
  }

  predicate Named(usage: Usage) {
    match HidToEvdev(usage) case Some(code) => UsageOf(code) == usage case None => false
  }

  lemma FirstKeys(usage: Usage)
    requires TypesNothing(usage) && usage < 0x49
    ensures Named(usage)
  {
  }

  lemma NextKeys(usage: Usage)
    requires 0x49 <= usage < 0x59
    ensures Named(usage)
  {
  }

  lemma LastKeys(usage: Usage)
    requires TypesNothing(usage) && usage >= 0x59
    ensures Named(usage)
  {
  }

  // Each of them has a code, and the kernel's list gives its usage back.
  lemma KernelNamesTheKey(usage: Usage)
    requires TypesNothing(usage)
    ensures Named(usage)
  {
    hide Named;
    if usage < 0x49 {
      FirstKeys(usage);
    } else if usage < 0x59 {
      NextKeys(usage);
    } else {
      LastKeys(usage);
    }
  }

  lemma NoOtherKeys(usage: Usage)
    requires usage < 0x04 || 0x65 < usage < 0x68 || 0x73 < usage < 0xE0 || 0xE7 < usage
    ensures HidToEvdev(usage).None?
  {
  }

  // So two of them never share a code.
  lemma DistinctCodes(usage: Usage, other: Usage)
    requires TypesNothing(usage) && TypesNothing(other)
    ensures HidToEvdev(usage).Some? && (HidToEvdev(usage) == HidToEvdev(other) ==> usage == other)
  {
    hide HidToEvdev, UsageOf;
    KernelNamesTheKey(usage);
    KernelNamesTheKey(other);
  }
}
