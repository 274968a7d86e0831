/** The commands of the FISH client and their text on the wire (fish/fish.cpp:182-244, 830-858). */
module FishCommands {
  import opened Text
  import Q = FishQuoting

  datatype Command =
    | FISH | VER | PWD | LIST | STAT | RETR | STOR | CWD | CHMOD | DELE | MKD | RMD | RENAME
    | LINK | SYMLINK | CHOWN | CHGRP | READ | WRITE | COPY | APPEND | EXEC

  function Params(cmd: Command): (n: nat)
    ensures n <= 3
  {
    match cmd
    case FISH | VER | PWD => 0
    case READ | WRITE => 3
    case STOR | CHMOD | RENAME | LINK | SYMLINK | CHOWN | CHGRP | COPY | APPEND | EXEC => 2
    case _ => 1
  }

  /** Reply lines to expect before the result line. */
  function ReplyLines(cmd: Command): int {
    if cmd == FISH || cmd == VER || cmd == PWD || cmd == RETR then 1 else 0
  }

  function Name(cmd: Command): string {
    match cmd
    case FISH => "FISH" case VER => "VER 0.0.3 copy append lscount lslinks lsmime exec stat"
    case PWD => "PWD" case LIST => "LIST" case STAT => "STAT" case RETR => "RETR" case STOR => "STOR"
    case CWD => "CWD" case CHMOD => "CHMOD" case DELE => "DELE" case MKD => "MKD" case RMD => "RMD"
    case RENAME => "RENAME" case LINK => "LINK" case SYMLINK => "SYMLINK" case CHOWN => "CHOWN"
    case CHGRP => "CHGRP" case READ => "READ" case WRITE => "WRITE" case COPY => "COPY"
    case APPEND => "APPEND" case EXEC => "EXEC"
  }

  function EscapeAll(args: seq<string>): (r: seq<string>)
    ensures |r| == |args|
  {
    seq(|args|, i requires 0 <= i < |args| => Q.Escape(args[i]))
  }

  function Spaced(args: seq<string>): string {
    if args == [] then "" else " " + args[0] + Spaced(args[1..])
  }

  /** First line of a command as the server reads it, without its newline. */
  function Head(cmd: Command, args: seq<string>): string {
    "#" + Name(cmd) + Spaced(EscapeAll(args))
  }

  /** A first line and a shell form put together. */
  function Assembled(head: string, shell: string): string {
    head + "\n " + shell + " 2>&1;echo '### 200'\n"
  }

  /** The text `sendCommand` builds from the shell forms `alt` (fish/fish.cpp:836-855). */
  function CommandText(alt: Command -> string, cmd: Command, args: seq<string>): string
    requires |args| <= 3
  {
    (if cmd == FISH then " " else "") + Assembled(Head(cmd, args), Q.ReplaceFrom(alt(cmd), EscapeAll(args), 0))
  }

  function Octal(n: nat): (s: string)
    ensures |s| >= 1 && AllDigits(s)
  {
    if n < 8 then [Digit(n)] else Octal(n / 8) + [Digit(n % 8)]
  }
}
