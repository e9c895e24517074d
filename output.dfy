/** The output stream every emitter prints to: standard output, or the file that replaced it.
    Its state is the text written so far; printing only appends. */
module Output {

  class Writer {
    var text: string

    constructor ()
      ensures text == []
    {
      text := [];
    }

    /** One `fmt.Printf` call whose formatted text is `s`. */
    method Write(s: string)
      modifies this
      ensures text == old(text) + s
    {
      text := text + s;
    }
  }
}
