/** The errors the cookie store throws, each with the condition that raises it. */
module StoreErrors {
  datatype StoreError =
    | UnknownFilePath               // the constructor was given a falsy file path
    | UnknownHostname               // `connect` was given no host
    | CorruptCookieFile(filePath: string)  // the downloaded file is not JSON
}
