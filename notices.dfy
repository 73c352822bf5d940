/** The pop-up notifications the page scripts raise (`window.PremiumToast`,
    `window.showToast`). The model keeps the notifications as an append-only log of
    what was announced; their timing and rendering are not part of it. */
module Notices {

  datatype Kind = Success | Error | Warning | Info

  datatype Notice = Notice(kind: Kind, message: string)
}
