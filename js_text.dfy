/** Character classes of JavaScript regular expressions shared by the patterns
    of gemstone-config-webpack.js. */
module JsText {

  /** The four JavaScript line terminators; the regex `.` matches none of them. */
  predicate IsLineTerminator(c: char) {
    c == '\n' || c == '\r' || c == '\U{2028}' || c == '\U{2029}'
  }
}
