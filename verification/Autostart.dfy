// What is to be started when the person logs in.
module Autostart {
  datatype Launch = Launch(exe: string, args: seq<string>)
}
